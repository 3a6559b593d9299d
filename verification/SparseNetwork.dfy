/** The dense form of a batch of sparse matrices and the tables of its memory check
    (`MultiSparseMatPolynomialAsDense`, `Derefs` and `Layers` in spartan/src/sparse_mlpoly.rs). */
module SparseNetwork {
  import opened Field
  import opened Vectors
  import opened Powers
  import opened Multilinear
  import opened DensePolynomial
  import opened Sumcheck
  import opened Combiners
  import opened ProductCircuit
  import opened SparseMatrix
  import opened MemoryChecking
  import opened Fingerprint

  // ---- Dense vectors of a sparse matrix ----

  function RowsOf(M: Matrix, N: nat): (s: seq<nat>)
    ensures |s| == N
  {
    seq(N, i requires 0 <= i < N => if i < |M| then M[i].row else 0)
  }

  function ColsOf(M: Matrix, N: nat): (s: seq<nat>)
    ensures |s| == N
  {
    seq(N, i requires 0 <= i < N => if i < |M| then M[i].col else 0)
  }

  function ValsOf(M: Matrix, N: nat): (s: Table)
    ensures |s| == N
  {
    seq<F>(N, i requires 0 <= i < N => if i < |M| then M[i].val else 0)
  }

  /** `sparse_to_dense_vecs`. */
  method ToDense(M: Matrix, N: nat) returns (rows: seq<nat>, cols: seq<nat>, vals: Table)
    requires |M| <= N
    ensures rows == RowsOf(M, N) && cols == ColsOf(M, N) && vals == ValsOf(M, N)
    ensures forall i :: 0 <= i < |M| ==> Entry(rows[i], cols[i], vals[i]) == M[i]
    ensures forall i :: |M| <= i < N ==> rows[i] == 0 && cols[i] == 0 && vals[i] == 0
  {
    rows, cols, vals := seq(N, _ => 0), seq(N, _ => 0), Zeros(N);
    for i := 0 to |M|
      invariant |rows| == |cols| == |vals| == N
      invariant forall j :: 0 <= j < i ==> rows[j] == M[j].row && cols[j] == M[j].col && vals[j] == M[j].val
      invariant forall j :: i <= j < N ==> rows[j] == cols[j] == 0 && vals[j] == 0
    {
      rows, cols, vals := rows[i := M[i].row], cols[i := M[i].col], vals[i := M[i].val];
    }
  }

  /** `deref_mem`. */
  function Deref(addr: seq<nat>, mem: seq<F>): (v: Table)
    requires Addresses(addr, |mem|)
    ensures |v| == |addr|
  {
    seq<F>(|addr|, i requires 0 <= i < |addr| => mem[addr[i]])
  }

  // ---- The third way to evaluate a sparse matrix ----

  lemma {:induction false} DenseFormUpTo(M: Matrix, N: nat, x: seq<F>, y: seq<F>, A: seq<F>, B: seq<F>, V: seq<F>, k: nat)
    requires InRange(M, |x|, |y|) && k <= |M| <= N == |A| == |B| && V == ValsOf(M, N)
    requires forall i :: 0 <= i < |M| ==> A[i] == x[M[i].row] && B[i] == y[M[i].col]
    ensures Dot(Hadamard(A, B)[..k], V[..k]) == Form(M[..k], x, y)
  {
    if k > 0 {
      DenseFormUpTo(M, N, x, y, A, B, V, k - 1);
      var H := Hadamard(A, B);
      assert H[..k][..k - 1] == H[..k - 1] && V[..k][..k - 1] == V[..k - 1] && M[..k][..k - 1] == M[..k - 1];
    }
  }

  lemma InRangeAddresses(M: Matrix, N: nat, rows: nat, cols: nat)
    requires InRange(M, rows, cols) && rows >= 1 && cols >= 1
    ensures Addresses(RowsOf(M, N), rows) && Addresses(ColsOf(M, N), cols)
  {
  }

  /** Dereferencing the padded index vectors and summing left * right * value gives the form. */
  lemma DenseForm(M: Matrix, N: nat, x: seq<F>, y: seq<F>)
    requires InRange(M, |x|, |y|) && |x| >= 1 && |y| >= 1 && |M| <= N
    ensures Addresses(RowsOf(M, N), |x|) && Addresses(ColsOf(M, N), |y|)
    ensures Dot(Hadamard(Deref(RowsOf(M, N), x), Deref(ColsOf(M, N), y)), ValsOf(M, N)) == Form(M, x, y)
  {
    InRangeAddresses(M, N, |x|, |y|);
    var A, B, V := Deref(RowsOf(M, N), x), Deref(ColsOf(M, N), y), ValsOf(M, N);
    var H, k := Hadamard(A, B), |M|;
    DenseFormUpTo(M, N, x, y, A, B, V, k);
    assert M[..k] == M;
    assert V == V[..k] + Zeros(N - k) && H == H[..k] + H[k..];
    DotAppend(H[..k], H[k..], V[..k], Zeros(N - k));
    DotCommutes(H[k..], Zeros(N - k));
    DotZeros(N - k, H[k..]);
    AddZero(Form(M, x, y));
  }

  // ---- equalize ----

  /** `equalize`: the shorter point gets leading zeros. */
  function Equalize(rx: seq<F>, ry: seq<F>): (r: (seq<F>, seq<F>))
    ensures |r.0| == |r.1| == if |rx| < |ry| then |ry| else |rx|
  {
    if |rx| < |ry| then (Zeros(|ry| - |rx|) + rx, ry)
    else if |rx| > |ry| then (rx, Zeros(|rx| - |ry|) + ry)
    else (rx, ry)
  }

  lemma LeadingZero(r: seq<F>)
    ensures EqTable(r) <= EqTable([0] + r)
  {
    var E := EqTable(r);
    assert ([0] + r)[1..] == r;
    SubZeroIsSame();
    forall i | 0 <= i < |E|
      ensures Scale(Sub(1, 0), E)[i] == E[i]
    {
      MulOne(E[i]);
    }
    assert EqTable([0] + r) == Scale(Sub(1, 0), E) + Scale(0, E);
    assert Scale(Sub(1, 0), E) == E;
  }

  lemma SubZeroIsSame()
    ensures Sub(1, 0) == 1
  {
    SubZero(1);
  }

  lemma {:induction false} LeadingZeros(d: nat, r: seq<F>)
    ensures EqTable(r) <= EqTable(Zeros(d) + r)
  {
    if d == 0 {
      assert Zeros(0) + r == r;
    } else {
      LeadingZeros(d - 1, r);
      LeadingZero(Zeros(d - 1) + r);
      assert Zeros(d) + r == [0] + (Zeros(d - 1) + r);
    }
  }

  lemma {:induction false} FormOfPrefix(M: Matrix, x: seq<F>, x': seq<F>, y: seq<F>, y': seq<F>)
    requires InRange(M, |x|, |y|) && x <= x' && y <= y'
    ensures Form(M, x', y') == Form(M, x, y)
  {
    if M != [] {
      FormOfPrefix(M[..|M| - 1], x, x', y, y');
    }
  }

  /** Equalizing the points does not change the value of the matrix polynomial. */
  lemma EqualizedForm(M: Matrix, rx: seq<F>, ry: seq<F>)
    requires InRange(M, Pow2(|rx|), Pow2(|ry|))
    ensures var (x, y) := Equalize(rx, ry);
            InRange(M, Pow2(|x|), Pow2(|y|)) && EvaluateAt(M, x, y) == EvaluateAt(M, rx, ry)
  {
    hide EqTable, Form, Pow2, Zeros;
    var (x, y) := Equalize(rx, ry);
    if |rx| < |ry| {
      LeadingZeros(|ry| - |rx|, rx);
    } else if |ry| < |rx| {
      LeadingZeros(|rx| - |ry|, ry);
    }
    FormOfPrefix(M, EqTable(rx), EqTable(x), EqTable(ry), EqTable(y));
  }

  /** The dot product of the dense vectors is the value of the matrix polynomial. */
  lemma DenseEvaluation(M: Matrix, n: nat, rx: seq<F>, ry: seq<F>)
    requires InRange(M, Pow2(|rx|), Pow2(|ry|)) && |M| <= Pow2(n)
    ensures var (x, y) := Equalize(rx, ry);
            && Addresses(RowsOf(M, Pow2(n)), Pow2(|x|)) && Addresses(ColsOf(M, Pow2(n)), Pow2(|y|))
            && var Ts := [Deref(RowsOf(M, Pow2(n)), EqTable(x)), Deref(ColsOf(M, Pow2(n)), EqTable(y)), ValsOf(M, Pow2(n))];
               Uniform(Ts, n) && HypercubeSum(Product3, Ts, n) == EvaluateAt(M, rx, ry)
  {
    hide EqTable, HypercubeSum, Dot, Hadamard;
    var (x, y) := Equalize(rx, ry);
    var N := Pow2(n);
    EqualizedForm(M, rx, ry);
    DenseForm(M, N, EqTable(x), EqTable(y));
    HypercubeDot(Deref(RowsOf(M, N), EqTable(x)), Deref(ColsOf(M, N), EqTable(y)), ValsOf(M, N), n);
  }

  // ---- The hash layer ----

  function OfAll(s: seq<nat>): (v: Table)
    ensures |v| == |s|
  {
    seq<F>(|s|, i requires 0 <= i < |s| => Of(s[i]))
  }

  function Indices(n: nat): (s: seq<nat>)
    ensures |s| == n
  {
    seq(n, i requires 0 <= i < n => i)
  }

  /** Every timestamp plus one. */
  function Next(T: Table): (v: Table)
    ensures |v| == |T|
  {
    seq<F>(|T|, i requires 0 <= i < |T| => Add(T[i], 1))
  }

  function HashTable(k: Keys, A: Table, V: Table, T: Table): (h: Table)
    requires |A| == |V| == |T|
    ensures |h| == |A|
  {
    seq<F>(|A|, i requires 0 <= i < |A| => Hash(k, A[i], V[i], T[i]))
  }

  lemma HashAsCombination(k: Keys, a: F, v: F, t: F)
    ensures Hash(k, a, v, t) == Add(Mul(1, Add(Mul(Mul(k.base, k.base), t), Mul(k.base, v))), Mul(1, Add(Mul(1, a), Mul(Sub(0, k.point), 1))))
  {
    var g2, s, w := Mul(k.base, k.base), Mul(t, Mul(k.base, k.base)), Mul(v, k.base);
    MulCommutes(g2, t);
    MulCommutes(k.base, v);
    MulOne(Add(s, w));
    MulOne(a);
    MulOne(Sub(0, k.point));
    MulOne(Add(a, Sub(0, k.point)));
    SubAsAdd(Add(s, w), a, k.point);
  }

  lemma SubAsAdd(x: F, a: F, p: F)
    ensures Sub(Add(x, a), p) == Add(x, Add(a, Sub(0, p)))
  {
    AddNegated(a, p);
    SubOfAdds(x, 0, a, p);
    SubZero(x);
    AddZero(p);
  }

  lemma HashTableAsCombination(k: Keys, A: Table, V: Table, T: Table, ones: Table)
    requires |A| == |V| == |T| == |ones| && forall i :: 0 <= i < |ones| ==> ones[i] == 1
    ensures HashTable(k, A, V, T)
         == Combine(1, Combine(Mul(k.base, k.base), T, k.base, V), 1, Combine(1, A, Sub(0, k.point), ones))
  {
    hide Hash;
    forall i | 0 <= i < |A|
      ensures HashTable(k, A, V, T)[i]
           == Combine(1, Combine(Mul(k.base, k.base), T, k.base, V), 1, Combine(1, A, Sub(0, k.point), ones))[i]
    {
      HashAsCombination(k, A[i], V[i], T[i]);
    }
  }

  /** The extension of a table of hashes is the hash of the extensions. */
  lemma MleHash(k: Keys, A: Table, V: Table, T: Table, r: seq<F>)
    requires |A| == |V| == |T| == Pow2(|r|)
    ensures Mle(HashTable(k, A, V, T), r) == Hash(k, Mle(A, r), Mle(V, r), Mle(T, r))
  {
    hide Mle, Hash;
    var ones: Table := seq(Pow2(|r|), _ => 1);
    var g2, p := Mul(k.base, k.base), Sub(0, k.point);
    HashTableAsCombination(k, A, V, T, ones);
    MleCombine(1, Combine(g2, T, k.base, V), 1, Combine(1, A, p, ones), r);
    MleCombine(g2, T, k.base, V, r);
    MleCombine(1, A, p, ones, r);
    MleConstant(ones, 1, r);
    HashAsCombination(k, Mle(A, r), Mle(V, r), Mle(T, r));
  }

  lemma MleNext(T: Table, r: seq<F>)
    requires |T| == Pow2(|r|)
    ensures Mle(Next(T), r) == Add(Mle(T, r), 1)
  {
    var ones: Table := seq(Pow2(|r|), _ => 1);
    MulOne(1);
    forall i | 0 <= i < |T|
      ensures Next(T)[i] == Combine(1, T, 1, ones)[i]
    {
      MulOne(T[i]);
    }
    assert Next(T) == Combine(1, T, 1, ones);
    MleCombine(1, T, 1, ones, r);
    MleConstant(ones, 1, r);
    MulOne(Mle(T, r));
  }

  /** `IdentityPolynomial::evaluate`: the sum of 2^(n-1-i) * r[i]. */
  function Identity(r: seq<F>): F {
    if r == [] then 0 else Add(Mul(Of(Pow2(|r| - 1)), r[0]), Identity(r[1..]))
  }

  lemma InterpShifted(a: F, d: F, t: F)
    ensures Interp(a, Add(a, d), t) == Add(Mul(d, t), a)
  {
    SubOfSum(a, d);
    MulCommutes(t, d);
    AddCommutes(a, Mul(d, t));
  }

  lemma {:induction false} MleIdentity(A: Table, base: nat, r: seq<F>)
    requires |A| == Pow2(|r|) && forall i :: 0 <= i < |A| ==> A[i] == Of(base + i)
    ensures Mle(A, r) == Add(Identity(r), Of(base))
    decreases |r|
  {
    hide Lo, Hi;
    if r == [] {
      AddZero(Of(base));
    } else {
      var h := Pow2(|r| - 1);
      HalfLengths(A, h);
      var id := Identity(r[1..]);
      IndexHalves(A, base, h);
      MleIdentity(Lo(A), base, r[1..]);
      MleIdentity(Hi(A), base + h, r[1..]);
      IdentityStep(id, base, h, r[0]);
    }
  }

  lemma HalfLengths(A: Table, h: nat)
    requires |A| == 2 * h
    ensures |Lo(A)| == |Hi(A)| == h
  {
  }

  lemma IndexHalves(A: Table, base: nat, h: nat)
    requires |A| == 2 * h && forall i :: 0 <= i < |A| ==> A[i] == Of(base + i)
    ensures forall i :: 0 <= i < |Lo(A)| ==> Lo(A)[i] == Of(base + i)
    ensures forall i :: 0 <= i < |Hi(A)| ==> Hi(A)[i] == Of(base + h + i)
  {
    forall i | 0 <= i < h
      ensures Hi(A)[i] == Of(base + h + i)
    {
      assert Hi(A)[i] == A[h + i];
    }
  }

  lemma IdentityStep(id: F, b: nat, h: nat, t: F)
    ensures Interp(Add(id, Of(b)), Add(id, Of(b + h)), t) == Add(Add(Mul(Of(h), t), id), Of(b))
  {
    OfAdd(b, h);
    AddAssociates(id, Of(b), Of(h));
    InterpShifted(Add(id, Of(b)), Of(h), t);
    AddAssociates(Mul(Of(h), t), id, Of(b));
  }

  /** The extension of the address table 0, 1, 2, ... */
  lemma MleIndices(r: seq<F>)
    ensures Mle(OfAll(Indices(Pow2(|r|))), r) == Identity(r)
  {
    hide Mle, Identity, Pow2;
    MleIdentity(OfAll(Indices(Pow2(|r|))), 0, r);
    OfRepresentative(0);
    AddZero(Identity(r));
  }

  // ---- The four products ----

  function InitTable(k: Keys, mem: Table): (T: Table)
    ensures |T| == |mem|
  {
    HashTable(k, OfAll(Indices(|mem|)), mem, Zeros(|mem|))
  }

  function AuditTable(k: Keys, mem: Table, audit: seq<nat>): (T: Table)
    requires |audit| == |mem|
    ensures |T| == |mem|
  {
    HashTable(k, OfAll(Indices(|mem|)), mem, OfAll(audit))
  }

  function ReadTable(k: Keys, mem: Table, addr: seq<nat>, ts: seq<nat>): (T: Table)
    requires Addresses(addr, |mem|) && |ts| == |addr|
    ensures |T| == |addr|
  {
    HashTable(k, OfAll(addr), Deref(addr, mem), OfAll(ts))
  }

  function WriteTable(k: Keys, mem: Table, addr: seq<nat>, ts: seq<nat>): (T: Table)
    requires Addresses(addr, |mem|) && |ts| == |addr|
    ensures |T| == |addr|
  {
    HashTable(k, OfAll(addr), Deref(addr, mem), Next(OfAll(ts)))
  }

  /** The accesses of one instance. */
  ghost function Taken(mem: Table, addr: seq<nat>, ts: seq<nat>): (s: seq<Access>)
    requires Addresses(addr, |mem|) && |ts| == |addr|
    ensures |s| == |addr|
  {
    seq(|addr|, i requires 0 <= i < |addr| => Access(addr[i], mem[addr[i]], ts[i]))
  }

  lemma TablesAreHashes(k: Keys, mem: Table, audit: seq<nat>)
    requires |audit| == |mem|
    ensures InitTable(k, mem) == Hashes(k, Init(mem))
    ensures AuditTable(k, mem, audit) == Hashes(k, Audit(mem, audit))
  {
    hide Hash;
    OfRepresentative(0);
  }

  lemma OpTablesAreHashes(k: Keys, mem: Table, addr: seq<nat>, ts: seq<nat>)
    requires Addresses(addr, |mem|) && |ts| == |addr|
    ensures ReadTable(k, mem, addr, ts) == Hashes(k, Taken(mem, addr, ts))
    ensures WriteTable(k, mem, addr, ts) == Hashes(k, Writes(Taken(mem, addr, ts)))
  {
    hide Hash;
    OfRepresentative(1);
    forall i | 0 <= i < |ts|
      ensures Add(Of(ts[i]), 1) == Of(ts[i] + 1)
    {
      OfAdd(ts[i], 1);
    }
  }

  ghost predicate Batch(mem: Table, addr: seq<seq<nat>>, ts: seq<seq<nat>>) {
    |addr| == |ts| && forall b :: 0 <= b < |addr| ==> Addresses(addr[b], |mem|) && |ts[b]| == |addr[b]|
  }

  ghost function TakenAll(mem: Table, addr: seq<seq<nat>>, ts: seq<seq<nat>>): (ss: seq<seq<Access>>)
    requires Batch(mem, addr, ts)
    ensures |ss| == |addr|
  {
    seq<seq<Access>>(|addr|, b requires 0 <= b < |addr| => Taken(mem, addr[b], ts[b]))
  }

  /** The accesses of a batch, in order, are the accesses to the concatenated addresses. */
  lemma {:induction false} TakenFlat(mem: Table, addr: seq<seq<nat>>, ts: seq<seq<nat>>)
    requires Batch(mem, addr, ts)
    ensures Addresses(Flat(addr), |mem|) && |Flat(ts)| == |Flat(addr)|
    ensures Flat(TakenAll(mem, addr, ts)) == Taken(mem, Flat(addr), Flat(ts))
  {
    hide Taken;
    if addr == [] {
      NothingTaken(mem);
    } else {
      var n := |addr| - 1;
      var a, t := addr[..n], ts[..n];
      TakenFlat(mem, a, t);
      assert TakenAll(mem, addr, ts)[..n] == TakenAll(mem, a, t);
      TakenAppend(mem, Flat(a), Flat(t), addr[n], ts[n]);
    }
  }

  lemma NothingTaken(mem: Table)
    ensures Addresses([], |mem|) && Taken(mem, [], []) == []
  {
  }

  lemma TakenAppend(mem: Table, a: seq<nat>, t: seq<nat>, b: seq<nat>, u: seq<nat>)
    requires Addresses(a, |mem|) && |t| == |a| && Addresses(b, |mem|) && |u| == |b|
    ensures Addresses(a + b, |mem|)
    ensures Taken(mem, a + b, t + u) == Taken(mem, a, t) + Taken(mem, b, u)
  {
  }

  /** The product of all the tables of a batch is the product of the hashes of all its accesses. */
  lemma {:induction false} ProdOfBatch(k: Keys, ss: seq<seq<Access>>, prods: seq<F>)
    requires |prods| == |ss| && forall b :: 0 <= b < |ss| ==> prods[b] == Prod(Hashes(k, ss[b]))
    ensures Prod(prods) == Prod(Hashes(k, Flat(ss)))
  {
    hide Hashes;
    if ss != [] {
      var n := |ss| - 1;
      ProdOfBatch(k, ss[..n], prods[..n]);
      ProductOfBoth(k, Flat(ss[..n]), ss[n]);
    } else {
      assert Hashes(k, []) == [];
    }
  }

  lemma {:induction false} WritesFlat(ss: seq<seq<Access>>, ws: seq<seq<Access>>)
    requires |ws| == |ss| && forall b :: 0 <= b < |ss| ==> ws[b] == Writes(ss[b])
    ensures Flat(ws) == Writes(Flat(ss))
  {
    if ss != [] {
      WritesFlat(ss[..|ss| - 1], ws[..|ss| - 1]);
    }
  }

  /** What `ProductLayerProof` asserts: init * writes = reads * audit, for every pair of challenges. */
  lemma HonestProducts(k: Keys, mem: Table, addr: seq<seq<nat>>, ts: seq<seq<nat>>, audit: seq<nat>,
                       taken: seq<F>, written: seq<F>)
    requires Batch(mem, addr, ts) && Flat(ts) == Stamps(Flat(addr)) && audit == Counts(Flat(addr), |mem|)
    requires |taken| == |written| == |addr|
    requires forall b :: 0 <= b < |addr| ==> taken[b] == Prod(ReadTable(k, mem, addr[b], ts[b]))
    requires forall b :: 0 <= b < |addr| ==> written[b] == Prod(WriteTable(k, mem, addr[b], ts[b]))
    ensures Mul(Prod(InitTable(k, mem)), Prod(written)) == Mul(Prod(taken), Prod(AuditTable(k, mem, audit)))
  {
    hide Prod, Hashes, InitTable, AuditTable, ReadTable, WriteTable, Writes, Taken, Stamps, Counts;
    var ss := TakenAll(mem, addr, ts);
    var ws := seq<seq<Access>>(|ss|, b requires 0 <= b < |ss| => Writes(ss[b]));
    forall b | 0 <= b < |addr|
      ensures taken[b] == Prod(Hashes(k, ss[b])) && written[b] == Prod(Hashes(k, ws[b]))
    {
      OpTablesAreHashes(k, mem, addr[b], ts[b]);
    }
    ProdOfBatch(k, ss, taken);
    ProdOfBatch(k, ws, written);
    WritesFlat(ss, ws);
    TakenFlat(mem, addr, ts);
    TakenIsHonest(mem, Flat(addr));
    HonestBalanced(mem, Flat(addr));
    BalancedPasses(k, mem, HonestReads(mem, Flat(addr)), audit);
    TablesAreHashes(k, mem, audit);
  }

  lemma TakenIsHonest(mem: Table, s: seq<nat>)
    requires Addresses(s, |mem|)
    ensures Taken(mem, s, Stamps(s)) == HonestReads(mem, s)
  {
  }
}
