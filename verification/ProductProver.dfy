/** The prover of the batched product argument (`ProductCircuitEvalProofBatched::prove` in
    spartan/src/product_tree.rs) and its completeness. */
module ProductProver {
  import opened Wrappers
  import opened Field
  import opened Vectors
  import opened Powers
  import opened Multilinear
  import opened Transcript
  import opened DensePolynomial
  import opened Sumcheck
  import opened SumcheckVerifier
  import opened SumcheckProver
  import opened BatchedProver
  import opened Combiners
  import opened ProductCircuit
  import opened ProductArgument

  datatype DotCircuit = DotCircuit(left: Table, right: Table, weight: Table)

  ghost predicate DotsUniform(ds: seq<DotCircuit>, n: nat) {
    forall i :: 0 <= i < |ds| ==> |ds[i].left| == |ds[i].right| == |ds[i].weight| == Pow2(n)
  }

  /** Sum of left * right * weight. */
  ghost function DotValue(d: DotCircuit, n: nat): F
    requires |d.left| == |d.right| == |d.weight| == Pow2(n)
  {
    HypercubeSum(Product3, [d.left, d.right, d.weight], n)
  }

  /** `DotProductCircuit::evaluate`. */
  method EvaluateDot(d: DotCircuit, ghost n: nat) returns (v: F)
    requires |d.left| == |d.right| == |d.weight| == Pow2(n)
    ensures v == DotValue(d, n)
  {
    v := 0;
    ghost var Ts := [d.left, d.right, d.weight];
    for i := 0 to |d.left|
      invariant v == PartialSum(Product3, Ts, i)
    {
      assert Column(Ts, i) == [d.left[i], d.right[i], d.weight[i]];
      v := Add(v, Mul(Mul(d.left[i], d.right[i]), d.weight[i]));
    }
    PartialSumIsHypercubeSum(Product3, Ts, n);
  }

  /** The list order of `BatchedProver`. */
  function Layout<T>(a: seq<T>, b: seq<T>, c: T, d: seq<T>, e: seq<T>, f: seq<T>): (s: seq<T>)
    requires |a| == |b| && |d| == |e| == |f|
    ensures |s| == 2 * |a| + 1 + 3 * |d|
  {
    a + b + [c] + d + e + f
  }

  lemma TripleOfLayout<T>(a: seq<T>, b: seq<T>, c: T, d: seq<T>, e: seq<T>, f: seq<T>, j: nat)
    requires |a| == |b| && |d| == |e| == |f| && j < |a| + |d|
    ensures Triple(Layout(a, b, c, d, e, f), |a|, |d|, j)
         == if j < |a| then [a[j], b[j], c] else [d[j - |a|], e[j - |a|], f[j - |a|]]
  {
  }

  function Lefts(ds: seq<DotCircuit>): (s: seq<Table>)
    ensures |s| == |ds|
  {
    seq(|ds|, i requires 0 <= i < |ds| => ds[i].left)
  }

  function Rights(ds: seq<DotCircuit>): (s: seq<Table>)
    ensures |s| == |ds|
  {
    seq(|ds|, i requires 0 <= i < |ds| => ds[i].right)
  }

  function Weights(ds: seq<DotCircuit>): (s: seq<Table>)
    ensures |s| == |ds|
  {
    seq(|ds|, i requires 0 <= i < |ds| => ds[i].weight)
  }

  function LayerTables(lefts: seq<Table>, rights: seq<Table>, E: Table, ds: seq<DotCircuit>): (Ts: Instance)
    requires |lefts| == |rights|
    ensures |Ts| == 2 * |lefts| + 1 + 3 * |ds|
  {
    Layout(lefts, rights, E, Lefts(ds), Rights(ds), Weights(ds))
  }

  lemma LayerTablesUniform(lefts: seq<Table>, rights: seq<Table>, E: Table, ds: seq<DotCircuit>, n: nat)
    requires |lefts| == |rights| && Uniform(lefts, n) && Uniform(rights, n) && |E| == Pow2(n) && DotsUniform(ds, n)
    ensures Uniform(LayerTables(lefts, rights, E, ds), n)
  {
  }

  /** The claims are the sums that the layer's sum-check is about. */
  ghost predicate HonestClaims(claims: seq<F>, values: seq<F>, lefts: seq<Table>, rights: seq<Table>, E: Table,
                               ds: seq<DotCircuit>, n: nat)
  {
    && |claims| == |lefts| == |rights|
    && |values| == |ds|
    && Uniform(lefts, n) && Uniform(rights, n) && |E| == Pow2(n) && DotsUniform(ds, n)
    && (forall j :: 0 <= j < |claims| ==> claims[j] == HypercubeSum(Product3, [lefts[j], rights[j], E], n))
    && (forall i :: 0 <= i < |ds| ==> values[i] == DotValue(ds[i], n))
  }

  lemma LayerSumAt(claims: seq<F>, values: seq<F>, lefts: seq<Table>, rights: seq<Table>, E: Table, ds: seq<DotCircuit>, n: nat, j: nat)
    requires HonestClaims(claims, values, lefts, rights, E, ds, n) && j < |lefts| + |ds|
    ensures |LayerTables(lefts, rights, E, ds)| == 2 * |lefts| + 1 + 3 * |ds|
    ensures var I := Triple(LayerTables(lefts, rights, E, ds), |lefts|, |ds|, j);
            Uniform(I, n) && HypercubeSum(Product3, I, n) == (claims + values)[j]
  {
    hide HypercubeSum, Layout, Product3, Triple, Pow2;
    TripleOfLayout(lefts, rights, E, Lefts(ds), Rights(ds), Weights(ds), j);
  }

  lemma LayerTotal(claims: seq<F>, values: seq<F>, lefts: seq<Table>, rights: seq<Table>, E: Table,
                   ds: seq<DotCircuit>, n: nat, cs: seq<F>)
    requires HonestClaims(claims, values, lefts, rights, E, ds, n)
    requires |cs| == |claims| + |values|
    ensures var Is := Triples(LayerTables(lefts, rights, E, ds), |lefts|, |ds|);
            UniformBatch(Is, n) && Total(Product3, cs, Is, n) == Dot(claims + values, cs)
  {
    var Ts, np, ns := LayerTables(lefts, rights, E, ds), |lefts|, |ds|;
    LayerTablesUniform(lefts, rights, E, ds, n);
    TriplesUniform(Ts, np, ns, n);
    var Is := Triples(Ts, np, ns);
    hide Dot, HypercubeSum, Layout, Product3, LayerTables, Triple, Uniform;
    forall j | 0 <= j < np + ns
      ensures Sums(Product3, Is, n)[j] == (claims + values)[j]
    {
      LayerSumAt(claims, values, lefts, rights, E, ds, n, j);
    }
    assert Sums(Product3, Is, n) == claims + values;
    DotCommutes(cs, claims + values);
  }

  // ---- The value the verifier expects ----

  lemma Associate4(c: F, l: F, r: F, w: F)
    ensures Mul(Mul(Mul(c, l), r), w) == Mul(c, Mul(Mul(l, r), w))
  {
    MulAssociates(c, l, r);
    MulAssociates(c, Mul(l, r), w);
  }

  lemma {:induction false} ExpectedProductsIsDot(cs: seq<F>, left: seq<F>, right: seq<F>, eq: F, m: nat, w: seq<F>)
    requires m <= |left| == |right| <= |cs| && m <= |w|
    requires forall j :: 0 <= j < m ==> w[j] == Mul(Mul(left[j], right[j]), eq)
    ensures ExpectedProducts(cs, left[..m], right[..m], eq) == Dot(cs[..m], w[..m])
  {
    if m > 0 {
      ExpectedProductsIsDot(cs, left, right, eq, m - 1, w);
      assert left[..m][..m - 1] == left[..m - 1] && right[..m][..m - 1] == right[..m - 1];
      assert cs[..m][..m - 1] == cs[..m - 1] && w[..m][..m - 1] == w[..m - 1];
    }
  }

  lemma {:induction false} ExpectedIsDot(cs: seq<F>, left: seq<F>, right: seq<F>, eq: F, d: DotClaims, k: nat, w: seq<F>)
    requires |left| == |right| && DotsReadable(d) && k <= |d.left| && |left| + k <= |cs| && |left| + k <= |w|
    requires forall j :: 0 <= j < |left| ==> w[j] == Mul(Mul(left[j], right[j]), eq)
    requires forall i :: 0 <= i < k ==> w[|left| + i] == Mul(Mul(d.left[i], d.right[i]), d.weight[i])
    ensures Expected(cs, left, right, eq, d, k) == Dot(cs[..|left| + k], w[..|left| + k])
    decreases k
  {
    hide Dot;
    var np := |left|;
    if k == 0 {
      ExpectedProductsIsDot(cs, left, right, eq, np, w);
      assert left[..np] == left && right[..np] == right;
    } else {
      ExpectedIsDot(cs, left, right, eq, d, k - 1, w);
      DotOfPrefix(cs, w, np + k - 1);
      Associate4(cs[np + k - 1], d.left[k - 1], d.right[k - 1], d.weight[k - 1]);
    }
  }

  lemma CubesOfLayout(left: seq<F>, right: seq<F>, eq: F, d: DotClaims, w: seq<F>)
    requires |left| == |right| && |d.left| == |d.right| == |d.weight|
    requires w == Cubes(Layout(left, right, eq, d.left, d.right, d.weight), |left|, |d.left|)
    ensures forall j :: 0 <= j < |left| ==> w[j] == Mul(Mul(left[j], right[j]), eq)
    ensures forall i :: 0 <= i < |d.left| ==> w[|left| + i] == Mul(Mul(d.left[i], d.right[i]), d.weight[i])
  {
    hide Layout;
    forall j | 0 <= j < |left|
      ensures w[j] == Mul(Mul(left[j], right[j]), eq)
    {
      TripleOfLayout(left, right, eq, d.left, d.right, d.weight, j);
    }
    forall i | 0 <= i < |d.left|
      ensures w[|left| + i] == Mul(Mul(d.left[i], d.right[i]), d.weight[i])
    {
      TripleOfLayout(left, right, eq, d.left, d.right, d.weight, |left| + i);
    }
  }

  /** For honest final values the expected value is the one the batched sum-check ends with. */
  lemma ExpectedIsProducts(cs: seq<F>, left: seq<F>, right: seq<F>, eq: F, d: DotClaims)
    requires |left| == |right| && |d.left| == |d.right| == |d.weight| && |cs| == |left| + |d.left|
    ensures Expected(cs, left, right, eq, d, |d.left|)
         == Products(cs, Layout(left, right, eq, d.left, d.right, d.weight), |left|, |d.left|)
  {
    hide Cubes, Layout, Dot, Expected;
    var np, ns := |left|, |d.left|;
    var w := Cubes(Layout(left, right, eq, d.left, d.right, d.weight), np, ns);
    CubesOfLayout(left, right, eq, d, w);
    ExpectedIsDot(cs, left, right, eq, d, ns, w);
    assert cs[..np + ns] == cs && w[..np + ns] == w;
  }

  // ---- Proving one layer ----

  /** Fresh polynomials with the given tables. */
  method NewPolynomials(Ts: seq<Table>, n: nat) returns (polys: seq<DensePolynomial>)
    requires Uniform(Ts, n)
    ensures fresh(polys) && Distinct(polys) && AllOf(polys, n)
    ensures TablesOf(polys) == Ts
  {
    polys := [];
    for i := 0 to |Ts|
      invariant |polys| == i && fresh(polys)
      invariant Distinct(polys)
      invariant forall j :: 0 <= j < i ==> polys[j].Valid() && polys[j].numVars == n && polys[j].Z == Ts[j]
    {
      var p := new DensePolynomial(Ts[i]);
      polys := polys + [p];
    }
    assert TablesOf(polys) == Ts;
  }

  /** Cuts the final values of the batched sum-check back into the claims of the layer. */
  function Cut(v: seq<F>, np: nat, ns: nat): (c: (seq<F>, seq<F>, F, DotClaims))
    requires |v| == 2 * np + 1 + 3 * ns
    ensures |c.0| == |c.1| == np && |c.3.left| == |c.3.right| == |c.3.weight| == ns
    ensures v == Layout(c.0, c.1, c.2, c.3.left, c.3.right, c.3.weight)
  {
    var k := 2 * np + 1;
    (v[..np], v[np..2 * np], v[2 * np], DotClaims(v[k..k + ns], v[k + ns..k + 2 * ns], v[k + 2 * ns..]))
  }

  lemma LayoutSlices<T>(a: seq<T>, b: seq<T>, c: T, d: seq<T>, e: seq<T>, f: seq<T>, s: seq<T>, np: nat, ns: nat)
    requires |a| == |b| == np && |d| == |e| == |f| == ns && s == Layout(a, b, c, d, e, f)
    ensures s[..np] == a && s[np..2 * np] == b && s[2 * np] == c
    ensures s[2 * np + 1..2 * np + 1 + ns] == d
    ensures s[2 * np + 1 + ns..2 * np + 1 + 2 * ns] == e
    ensures s[2 * np + 1 + 2 * ns..] == f
  {
  }

  /** The values v are the extensions at r of the tables Ts. */
  ghost predicate ValuesAt(v: seq<F>, Ts: Instance, r: seq<F>) {
    |v| == |Ts| && Uniform(Ts, |r|) && forall j :: 0 <= j < |v| ==> v[j] == Mle(Ts[j], r)
  }

  lemma ValueOf(v: seq<F>, Ts: Instance, r: seq<F>, j: nat)
    requires ValuesAt(v, Ts, r) && j < |v|
    ensures |Ts[j]| == Pow2(|r|) && v[j] == Mle(Ts[j], r)
  {
  }

  lemma ValuesSlice(v: seq<F>, Ts: Instance, r: seq<F>, a: nat, b: nat)
    requires ValuesAt(v, Ts, r) && a <= b <= |v|
    ensures ValuesAt(v[a..b], Ts[a..b], r)
  {
    hide Mle;
  }

  ghost predicate DotsAt(d: DotClaims, ds: seq<DotCircuit>, r: seq<F>) {
    ValuesAt(d.left, Lefts(ds), r) && ValuesAt(d.right, Rights(ds), r) && ValuesAt(d.weight, Weights(ds), r)
  }

  lemma CutValues(v: seq<F>, lefts: seq<Table>, rights: seq<Table>, E: Table, ds: seq<DotCircuit>, r: seq<F>)
    requires |lefts| == |rights| && ValuesAt(v, LayerTables(lefts, rights, E, ds), r)
    ensures var (left, right, eq, d) := Cut(v, |lefts|, |ds|);
            && ValuesAt(left, lefts, r) && ValuesAt(right, rights, r)
            && |E| == Pow2(|r|) && eq == Mle(E, r)
            && DotsAt(d, ds, r)
  {
    hide *;
    var np, ns, Ts := |lefts|, |ds|, LayerTables(lefts, rights, E, ds);
    SameLength(v, Ts, r);
    LayerSlices(lefts, rights, E, ds);
    CutSides(v, Ts, r, np, ns);
    CutDots(v, Ts, r, np, ns, ds);
  }

  lemma LayerSlices(lefts: seq<Table>, rights: seq<Table>, E: Table, ds: seq<DotCircuit>)
    requires |lefts| == |rights|
    ensures var Ts, np, ns := LayerTables(lefts, rights, E, ds), |lefts|, |ds|;
            && |Ts| == 2 * np + 1 + 3 * ns && Ts[..np] == lefts && Ts[np..2 * np] == rights && Ts[2 * np] == E
            && DotTables(Ts, np, ns, ds)
  {
    hide Layout, Lefts, Rights, Weights;
    LayoutSlices(lefts, rights, E, Lefts(ds), Rights(ds), Weights(ds), LayerTables(lefts, rights, E, ds), |lefts|, |ds|);
  }

  /** The tables of the dot products are the last ones of a layer. */
  ghost predicate DotTables(Ts: Instance, np: nat, ns: nat, ds: seq<DotCircuit>)
    requires |Ts| == 2 * np + 1 + 3 * ns
  {
    var k := 2 * np + 1;
    Ts[k..k + ns] == Lefts(ds) && Ts[k + ns..k + 2 * ns] == Rights(ds) && Ts[k + 2 * ns..] == Weights(ds)
  }

  lemma CutSides(v: seq<F>, Ts: Instance, r: seq<F>, np: nat, ns: nat)
    requires ValuesAt(v, Ts, r) && |v| == |Ts| == 2 * np + 1 + 3 * ns
    ensures var (left, right, eq, _) := Cut(v, np, ns);
            && ValuesAt(left, Ts[..np], r) && ValuesAt(right, Ts[np..2 * np], r)
            && |Ts[2 * np]| == Pow2(|r|) && eq == Mle(Ts[2 * np], r)
  {
    hide Layout, Mle, ValuesAt, Uniform;
    ValueOf(v, Ts, r, 2 * np);
    ValuesSlice(v, Ts, r, 0, np);
    ValuesSlice(v, Ts, r, np, 2 * np);
    assert v[0..np] == v[..np] && Ts[0..np] == Ts[..np];
  }

  lemma CutDots(v: seq<F>, Ts: Instance, r: seq<F>, np: nat, ns: nat, ds: seq<DotCircuit>)
    requires ValuesAt(v, Ts, r) && |ds| == ns && |v| == |Ts| == 2 * np + 1 + 3 * ns && DotTables(Ts, np, ns, ds)
    ensures DotsAt(Cut(v, np, ns).3, ds, r)
  {
    hide ValuesAt, Lefts, Rights, Weights, Layout;
    var k := 2 * np + 1;
    ValuesSlice(v, Ts, r, k, k + ns);
    ValuesSlice(v, Ts, r, k + ns, k + 2 * ns);
    ValuesSlice(v, Ts, r, k + 2 * ns, |v|);
    assert v[k + 2 * ns..] == v[k + 2 * ns..|v|] && Ts[k + 2 * ns..] == Ts[k + 2 * ns..|Ts|];
  }

  ghost function Joined(lefts: seq<Table>, rights: seq<Table>): (Ts: seq<Table>)
    requires |lefts| == |rights|
    ensures |Ts| == |lefts|
  {
    seq(|lefts|, j requires 0 <= j < |lefts| => lefts[j] + rights[j])
  }

  /** One more challenge joins the halves of every table. */
  lemma JoinedValues(left: seq<F>, right: seq<F>, lefts: seq<Table>, rights: seq<Table>, t: F, r: seq<F>)
    requires ValuesAt(left, lefts, r) && ValuesAt(right, rights, r) && |lefts| == |rights|
    ensures ValuesAt(Interps(left, right, t), Joined(lefts, rights), [t] + r)
  {
    forall j | 0 <= j < |left|
      ensures |Joined(lefts, rights)[j]| == Pow2(|r| + 1)
      ensures Interps(left, right, t)[j] == Mle(Joined(lefts, rights)[j], [t] + r)
    {
      var Z := lefts[j] + rights[j];
      assert |Z| == Pow2(|r| + 1) && Lo(Z) == lefts[j] && Hi(Z) == rights[j];
      assert ([t] + r)[1..] == r;
    }
  }

  /** The honest sum-check of a layer passes all the checks that follow it. */
  lemma LayerAccepted(st: LayerState, layer: LayerProof, cs: seq<F>, d: DotClaims, v: seq<F>, eq: F, sc: State)
    requires |st.claims| == |layer.left| == |layer.right| && |d.left| == |d.right| == |d.weight|
    requires |cs| == |layer.left| + |d.left| && |sc.r| == |st.rand|
    requires v == Layout(layer.left, layer.right, eq, d.left, d.right, d.weight)
    requires eq == EqEval(st.rand, sc.r)
    requires sc.e == Products(cs, v, |layer.left|, |d.left|)
    ensures var log := sc.log + ClaimLog(layer.left, layer.right) + DotLog(d, |d.left|);
            var t := Challenge(log, LayerChallenge);
            FinishLayer(st, layer, cs, d, |st.claims|, sc) ==
            Some(LayerState(Interps(layer.left, layer.right, t), [t] + sc.r, log + [Squeeze(LayerChallenge)]))
  {
    hide Products, Layout, Expected, EqEval;
    ExpectedIsProducts(cs, layer.left, layer.right, eq, d);
  }

  /** The sum-check of one layer, from fresh coefficients to the final values of all its tables. */
  method LayerSumcheck(claims: seq<F>, values: seq<F>, lefts: seq<Table>, rights: seq<Table>, rand: seq<F>,
                       ds: seq<DotCircuit>, transcript: Transcript)
    returns (cs: seq<F>, messages: seq<seq<F>>, r: seq<F>, v: seq<F>)
    requires HonestClaims(claims, values, lefts, rights, EqTable(rand), ds, |rand|)
    modifies transcript
    ensures cs == Challenges(old(transcript.log), LayerCoefficients, |claims + values|) && |cs| == |lefts| + |ds|
    ensures |r| == |rand| && |v| == 2 * |lefts| + 1 + 3 * |ds|
    ensures ValuesAt(v, LayerTables(lefts, rights, EqTable(rand), ds), r)
    ensures Verify(messages, Dot(claims + values, cs), |rand|, 3,
                   old(transcript.log) + Squeezes(LayerCoefficients, |claims + values|))
         == Some(State(Products(cs, v, |lefts|, |ds|), r, transcript.log))
  {
    var E := EqEvals(rand);
    var Ts := LayerTables(lefts, rights, E, ds);
    var n, np, ns := |rand|, |lefts|, |ds|;
    LayerTablesUniform(lefts, rights, E, ds, n);
    cs := transcript.ChallengeVector(LayerCoefficients, |claims + values|);
    LayerTotal(claims, values, lefts, rights, E, ds, n, cs);
    hide EqTable, LayerTables, Products, Dot, Total, Triples, Mle, TablesOf, Uniform, UniformBatch, HonestClaims, Verify;
    var claim := DotProduct(claims + values, cs);
    var polys := NewPolynomials(Ts, n);
    messages, r, v := ProveBatched(claim, cs, polys, np, ns, n, transcript);
    NoError(claim, Products(cs, v, np, ns), ErrorProduct(3, r));
  }

  lemma NoError(claim: F, e: F, p: F)
    ensures Add(e, Mul(Sub(claim, claim), p)) == e
  {
    SubIsZero(claim, claim);
    MulZero(p);
    AddZero(e);
  }

  /** One layer of the prover. The verifier accepts it and moves to the same claims, point and
      transcript; the new claims are the extensions of the joined tables at the new point. */
  method ProveLayer(claims: seq<F>, values: seq<F>, lefts: seq<Table>, rights: seq<Table>, rand: seq<F>,
                    ds: seq<DotCircuit>, transcript: Transcript)
    returns (layer: LayerProof, d: DotClaims, claims': seq<F>, rand': seq<F>)
    requires HonestClaims(claims, values, lefts, rights, EqTable(rand), ds, |rand|)
    modifies transcript
    ensures |rand'| == |rand| + 1
    ensures VerifyLayer(LayerState(claims, rand, old(transcript.log)), |rand|, layer, values, d, |claims|)
         == Some(LayerState(claims', rand', transcript.log))
    ensures ValuesAt(claims', Joined(lefts, rights), rand')
    ensures DotsAt(d, ds, rand'[1..])
  {
    var cs, messages, r, v := LayerSumcheck(claims, values, lefts, rights, rand, ds, transcript);
    var (left, right, eq, d') := Cut(v, |lefts|, |ds|);
    d, layer := d', LayerProof(messages, left, right);
    ghost var sc := State(Products(cs, v, |lefts|, |ds|), r, transcript.log);
    ghost var st := LayerState(claims, rand, old(transcript.log));
    hide EqTable, LayerTables, Products, Dot, Mle, Uniform, Verify, Layout, EqEval, Joined, Interps, FinishLayer, ClaimLog, DotLog, ValuesAt, DotsAt;
    CutValues(v, lefts, rights, EqTable(rand), ds, r);
    MleEqTable(rand, r);
    LayerAccepted(st, layer, cs, d, v, eq, sc);
    AppendClaims(left, right, transcript);
    AppendDots(d, transcript);
    var t := transcript.ChallengeScalar(LayerChallenge);
    claims', rand' := Interps(left, right, t), [t] + r;
    JoinedValues(left, right, lefts, rights, t, r);
    assert rand'[1..] == r;
  }

  // ---- Proving all layers ----

  ghost function LayersAt(Vs: seq<Table>, n: nat, k: nat): (Ts: seq<Table>)
    requires Uniform(Vs, n) && k <= n
    ensures |Ts| == |Vs| && Uniform(Ts, n - k)
  {
    seq(|Vs|, j requires 0 <= j < |Vs| => Layer(Vs[j], n, k))
  }

  ghost predicate CircuitsOf(circuits: seq<ProductCircuit>, Vs: seq<Table>, n: nat) {
    && |circuits| == |Vs|
    && Uniform(Vs, n)
    && forall j :: 0 <= j < |Vs| ==> CircuitOf(circuits[j], Vs[j], n)
  }

  function LeftHalves(circuits: seq<ProductCircuit>, k: nat): (Ts: seq<Table>)
    requires forall j :: 0 <= j < |circuits| ==> k < |circuits[j].left|
    ensures |Ts| == |circuits| && forall j :: 0 <= j < |Ts| ==> Ts[j] == circuits[j].left[k]
  {
    seq(|circuits|, j requires 0 <= j < |circuits| => circuits[j].left[k])
  }

  function RightHalves(circuits: seq<ProductCircuit>, k: nat): (Ts: seq<Table>)
    requires forall j :: 0 <= j < |circuits| ==> k < |circuits[j].right|
    ensures |Ts| == |circuits| && forall j :: 0 <= j < |Ts| ==> Ts[j] == circuits[j].right[k]
  {
    seq(|circuits|, j requires 0 <= j < |circuits| => circuits[j].right[k])
  }

  lemma HalvesOfLayer(c: ProductCircuit, V: Table, n: nat, k: nat)
    requires CircuitOf(c, V, n) && k < n
    ensures k < |c.left| && k < |c.right|
    ensures c.left[k] == Lo(Layer(V, n, k)) && c.right[k] == Hi(Layer(V, n, k))
    ensures |c.left[k]| == |c.right[k]| == Pow2(n - k - 1)
    ensures c.left[k] + c.right[k] == Layer(V, n, k)
  {
    hide Layer;
    NextLayer(V, n, k);
    var W := Layer(V, n, k);
    assert W == Lo(W) + Hi(W);
  }

  lemma HonestAt(c: ProductCircuit, V: Table, n: nat, k: nat, rand: seq<F>)
    requires CircuitOf(c, V, n) && k < n && |rand| == n - k - 1
    ensures k < |c.left| && k < |c.right| && Uniform([c.left[k], c.right[k], EqTable(rand)], |rand|)
    ensures Mle(Layer(V, n, k + 1), rand) == HypercubeSum(Product3, [c.left[k], c.right[k], EqTable(rand)], |rand|)
  {
    hide Layer, EqTable, Mle, HypercubeSum, Lo, Hi;
    HalvesOfLayer(c, V, n, k);
    LayerClaim(V, n, k, rand);
  }

  lemma HalvesInRange(circuits: seq<ProductCircuit>, Vs: seq<Table>, n: nat, k: nat)
    requires CircuitsOf(circuits, Vs, n) && k < n
    ensures forall j :: 0 <= j < |circuits| ==> k < |circuits[j].left| && k < |circuits[j].right|
    ensures Uniform(LeftHalves(circuits, k), n - k - 1) && Uniform(RightHalves(circuits, k), n - k - 1)
    ensures Joined(LeftHalves(circuits, k), RightHalves(circuits, k)) == LayersAt(Vs, n, k)
  {
    hide Layer, Lo, Hi, CircuitOf;
    forall j | 0 <= j < |Vs|
      ensures k < |circuits[j].left| && k < |circuits[j].right|
      ensures |circuits[j].left[k]| == |circuits[j].right[k]| == Pow2(n - k - 1)
      ensures circuits[j].left[k] + circuits[j].right[k] == Layer(Vs[j], n, k)
    {
      HalvesOfLayer(circuits[j], Vs[j], n, k);
    }
  }

  /** The claims are the sums of the layer below, circuit by circuit. */
  lemma ClaimsHonest(circuits: seq<ProductCircuit>, Vs: seq<Table>, n: nat, k: nat, claims: seq<F>, rand: seq<F>,
                     L: seq<Table>, R: seq<Table>)
    requires CircuitsOf(circuits, Vs, n) && k < n && |rand| == n - k - 1
    requires ValuesAt(claims, LayersAt(Vs, n, k + 1), rand)
    requires |L| == |R| == |Vs| && Uniform(L, |rand|) && Uniform(R, |rand|)
    requires forall j :: 0 <= j < |Vs| ==> k < |circuits[j].left| && k < |circuits[j].right|
    requires forall j :: 0 <= j < |Vs| ==> L[j] == circuits[j].left[k] && R[j] == circuits[j].right[k]
    ensures forall j :: 0 <= j < |claims| ==> claims[j] == HypercubeSum(Product3, [L[j], R[j], EqTable(rand)], |rand|)
  {
    hide HypercubeSum, Layer, Mle, EqTable, CircuitOf;
    forall j | 0 <= j < |Vs|
      ensures claims[j] == HypercubeSum(Product3, [L[j], R[j], EqTable(rand)], |rand|)
    {
      HonestAt(circuits[j], Vs[j], n, k, rand);
      assert claims[j] == Mle(LayersAt(Vs, n, k + 1)[j], rand);
    }
  }

  ghost function DotValues(ds: seq<DotCircuit>, n: nat): (v: seq<F>)
    requires DotsUniform(ds, n)
    ensures |v| == |ds|
  {
    seq<F>(|ds|, i requires 0 <= i < |ds| => DotValue(ds[i], n))
  }

  method DotEvaluations(ds: seq<DotCircuit>, ghost n: nat) returns (values: seq<F>)
    requires DotsUniform(ds, n)
    ensures values == DotValues(ds, n)
  {
    values := [];
    hide DotValue;
    for i := 0 to |ds|
      invariant |values| == i && forall j :: 0 <= j < i ==> values[j] == DotValue(ds[j], n)
    {
      var v := EvaluateDot(ds[i], n);
      values := values + [v];
    }
  }

  /** One iteration of the layer loop, for layer k. */
  method ProveLayerOf(circuits: seq<ProductCircuit>, ghost Vs: seq<Table>, n: nat, k: nat, claims: seq<F>, rand: seq<F>,
                      ds: seq<DotCircuit>, values: seq<F>, transcript: Transcript)
    returns (layer: LayerProof, d: DotClaims, claims': seq<F>, rand': seq<F>)
    requires CircuitsOf(circuits, Vs, n) && k < n && |rand| == n - k - 1
    requires ValuesAt(claims, LayersAt(Vs, n, k + 1), rand)
    requires DotsUniform(ds, |rand|) && values == DotValues(ds, |rand|)
    modifies transcript
    ensures |rand'| == |rand| + 1
    ensures VerifyLayer(LayerState(claims, rand, old(transcript.log)), |rand|, layer, values, d, |claims|)
         == Some(LayerState(claims', rand', transcript.log))
    ensures ValuesAt(claims', LayersAt(Vs, n, k), rand')
    ensures DotsAt(d, ds, rand'[1..])
  {
    assert |claims| == |Vs| == |circuits|;
    hide EqTable, CircuitsOf, LayersAt, ValuesAt, DotsAt, VerifyLayer, Joined, Uniform, DotValue, LeftHalves, RightHalves,
         HypercubeSum;
    HalvesInRange(circuits, Vs, n, k);
    var L, R := LeftHalves(circuits, k), RightHalves(circuits, k);
    ClaimsHonest(circuits, Vs, n, k, claims, rand, L, R);
    assert HonestClaims(claims, values, L, R, EqTable(rand), ds, |rand|);
    hide HonestClaims;
    layer, d, claims', rand' := ProveLayer(claims, values, L, R, rand, ds, transcript);
  }

  lemma {:induction false} DotsEnterLast(layers: seq<LayerProof>, d: DotClaims, d': DotClaims, products: seq<F>,
                                         values: seq<F>, n: nat, log: Log)
    requires |layers| < n
    ensures VerifyLayers(layers, d, products, values, n, log) == VerifyLayers(layers, d', products, values, n, log)
    decreases |layers|
  {
    if layers != [] {
      DotsEnterLast(layers[..|layers| - 1], d, d', products, values, n, log);
    }
  }

  /** Accepting one more layer. */
  lemma LayersStep(layers: seq<LayerProof>, layer: LayerProof, d: DotClaims, products: seq<F>, values: seq<F>, n: nat,
                   log: Log, st: LayerState, st': LayerState)
    requires |layers| < n
    requires VerifyLayers(layers, NO_DOTS, products, values, n, log) == Some(st)
    requires if |layers| + 1 == n
             then VerifyLayer(st, |layers|, layer, values, d, |products|) == Some(st')
             else d == NO_DOTS && VerifyLayer(st, |layers|, layer, [], NO_DOTS, |products|) == Some(st')
    ensures VerifyLayers(layers + [layer], d, products, values, n, log) == Some(st')
  {
    hide VerifyLayer;
    assert (layers + [layer])[..|layers|] == layers;
    DotsEnterLast(layers, d, NO_DOTS, products, values, n, log);
  }

  lemma NoDotsAt(d: DotClaims, r: seq<F>)
    requires DotsAt(d, [], r)
    ensures d == NO_DOTS
  {
  }

  ghost function ProductsOf(Vs: seq<Table>): (v: seq<F>)
    ensures |v| == |Vs|
  {
    seq<F>(|Vs|, j requires 0 <= j < |Vs| => Prod(Vs[j]))
  }

  lemma TopClaims(Vs: seq<Table>, n: nat)
    requires Uniform(Vs, n)
    ensures ValuesAt(ProductsOf(Vs), LayersAt(Vs, n, n), [])
  {
    hide Layer, Prod;
    forall j | 0 <= j < |Vs|
      ensures ProductsOf(Vs)[j] == Mle(LayersAt(Vs, n, n)[j], [])
    {
      LastLayer(Vs[j], n);
    }
  }

  method Evaluations(circuits: seq<ProductCircuit>, ghost Vs: seq<Table>, n: nat) returns (claims: seq<F>)
    requires CircuitsOf(circuits, Vs, n) && n >= 1
    ensures claims == ProductsOf(Vs)
  {
    claims := [];
    hide Prod, CircuitOf;
    for j := 0 to |circuits|
      invariant |claims| == j && forall i :: 0 <= i < j ==> claims[i] == Prod(Vs[i])
    {
      var v := EvaluateCircuit(circuits[j], Vs[j], n);
      claims := claims + [v];
    }
  }

  /** All the layers, top to bottom. */
  method ProveLayers(circuits: seq<ProductCircuit>, ghost Vs: seq<Table>, ds: seq<DotCircuit>, n: nat,
                     transcript: Transcript)
    returns (proof: BatchProof, rand: seq<F>, ghost claims: seq<F>)
    requires CircuitsOf(circuits, Vs, n) && n >= 1 && DotsUniform(ds, n - 1)
    modifies transcript
    ensures |rand| == n && |proof.layers| == n
    ensures VerifyLayers(proof.layers, proof.dots, ProductsOf(Vs), DotValues(ds, n - 1), n, old(transcript.log))
         == Some(LayerState(claims, rand, transcript.log))
    ensures ValuesAt(claims, LayersAt(Vs, n, 0), rand)
    ensures DotsAt(proof.dots, ds, rand[1..])
  {
    hide CircuitOf, LayersAt, ValuesAt, DotsAt, VerifyLayer, VerifyLayers, DotValues, ProductsOf, Uniform;
    ghost var products, values, log := ProductsOf(Vs), DotValues(ds, n - 1), transcript.log;
    var current := Evaluations(circuits, Vs, n);
    TopClaims(Vs, n);
    var layers, dots := [], NO_DOTS;
    rand := [];
    FirstState(products, values, n, log);
    for i := 0 to n
      invariant |rand| == i == |layers|
      invariant ValuesAt(current, LayersAt(Vs, n, n - i), rand) && |current| == |products|
      invariant i < n ==> dots == NO_DOTS
      invariant i == n ==> DotsAt(dots, ds, rand[1..])
      invariant VerifyLayers(layers, dots, products, values, n, log) == Some(LayerState(current, rand, transcript.log))
    {
      var k := n - 1 - i;
      ghost var st := LayerState(current, rand, transcript.log);
      var mine, vs := [], [];
      if k == 0 {
        mine := ds;
        vs := DotEvaluations(ds, n - 1);
      } else {
        NoDotValues(|rand|);
      }
      var layer, d, claims', rand' := ProveLayerOf(circuits, Vs, n, k, current, rand, mine, vs, transcript);
      if k != 0 {
        NoDotsAt(d, rand'[1..]);
      }
      LayersStep(layers, layer, d, products, values, n, log, st, LayerState(claims', rand', transcript.log));
      layers, dots, current, rand := layers + [layer], d, claims', rand';
      SameLength(current, LayersAt(Vs, n, k), rand);
    }
    claims := current;
    proof := BatchProof(layers, dots);
  }

  lemma FirstState(products: seq<F>, values: seq<F>, n: nat, log: Log)
    ensures VerifyLayers([], NO_DOTS, products, values, n, log) == Some(LayerState(products, [], log))
  {
  }

  lemma NoDotValues(n: nat)
    ensures DotsUniform([], n) && DotValues([], n) == []
  {
  }

  lemma SameLength(v: seq<F>, Ts: Instance, r: seq<F>)
    requires ValuesAt(v, Ts, r)
    ensures |v| == |Ts|
  {
  }

  // ---- Completeness ----

  lemma {:induction false} CombineDotsEntry(d: DotClaims, k: nat, t: F, i: nat)
    requires 2 * k <= |d.left| && 2 * k <= |d.right| && 2 * k <= |d.weight| && i < k
    ensures |CombineDots(d, k, t)| == 3 * k
    ensures CombineDots(d, k, t)[3 * i] == Interp(d.left[2 * i], d.left[2 * i + 1], t)
    ensures CombineDots(d, k, t)[3 * i + 1] == Interp(d.right[2 * i], d.right[2 * i + 1], t)
    ensures CombineDots(d, k, t)[3 * i + 2] == Interp(d.weight[2 * i], d.weight[2 * i + 1], t)
  {
    hide Interp;
    if k > 1 {
      CombineDotsEntry(d, k - 1, t, if i < k - 1 then i else 0);
    }
    var before := CombineDots(d, k - 1, t);
    assert |before| == 3 * (k - 1);
  }

  lemma CombineDotsLength(d: DotClaims, k: nat, t: F)
    requires 2 * k <= |d.left| && 2 * k <= |d.right| && 2 * k <= |d.weight|
    ensures |CombineDots(d, k, t)| == 3 * k
  {
    if k > 0 {
      CombineDotsEntry(d, k, t, 0);
    }
  }

  /** Three claims about the joined tables of two dot products. */
  ghost predicate UnsplitDot(dots: seq<F>, i: nat, a: DotCircuit, b: DotCircuit, r: seq<F>) {
    && 3 * i + 2 < |dots|
    && |a.left + b.left| == |a.right + b.right| == |a.weight + b.weight| == Pow2(|r|)
    && dots[3 * i] == Mle(a.left + b.left, r)
    && dots[3 * i + 1] == Mle(a.right + b.right, r)
    && dots[3 * i + 2] == Mle(a.weight + b.weight, r)
  }

  /** The dot-product claims are about the tables before they were split. */
  ghost predicate UnsplitDots(dots: seq<F>, ds: seq<DotCircuit>, r: seq<F>) {
    && |dots| == 3 * (|ds| / 2)
    && forall i :: 0 <= i < |ds| / 2 ==> UnsplitDot(dots, i, ds[2 * i], ds[2 * i + 1], r)
  }

  lemma MleJoined(A: Table, B: Table, t: F, r: seq<F>)
    requires |A| == |B| == Pow2(|r|)
    ensures |A + B| == Pow2(|r| + 1)
    ensures Mle(A + B, [t] + r) == Interp(Mle(A, r), Mle(B, r), t)
  {
    assert Lo(A + B) == A && Hi(A + B) == B && ([t] + r)[1..] == r;
  }

  lemma DotClaimsAt(d: DotClaims, ds: seq<DotCircuit>, r: seq<F>, i: nat)
    requires DotsAt(d, ds, r) && i < |ds|
    ensures |d.left| == |d.right| == |d.weight| == |ds|
    ensures |ds[i].left| == |ds[i].right| == |ds[i].weight| == Pow2(|r|)
    ensures d.left[i] == Mle(ds[i].left, r) && d.right[i] == Mle(ds[i].right, r) && d.weight[i] == Mle(ds[i].weight, r)
  {
    hide Mle;
    assert d.left[i] == Mle(Lefts(ds)[i], r) && d.right[i] == Mle(Rights(ds)[i], r) && d.weight[i] == Mle(Weights(ds)[i], r);
    assert |Lefts(ds)[i]| == |Rights(ds)[i]| == |Weights(ds)[i]| == Pow2(|r|);
  }

  lemma DotUnsplit(d: DotClaims, ds: seq<DotCircuit>, t: F, r: seq<F>, k: nat, i: nat)
    requires DotsAt(d, ds, r) && |d.left| == |d.right| == |d.weight| == |ds| && i < k && 2 * k <= |ds|
    ensures UnsplitDot(CombineDots(d, k, t), i, ds[2 * i], ds[2 * i + 1], [t] + r)
  {
    hide Mle, DotsAt, CombineDots;
    var a, b := ds[2 * i], ds[2 * i + 1];
    CombineDotsEntry(d, k, t, i);
    DotClaimsAt(d, ds, r, 2 * i);
    DotClaimsAt(d, ds, r, 2 * i + 1);
    MleJoined(a.left, b.left, t, r);
    MleJoined(a.right, b.right, t, r);
    MleJoined(a.weight, b.weight, t, r);
  }

  lemma DotLengths(d: DotClaims, ds: seq<DotCircuit>, r: seq<F>)
    requires DotsAt(d, ds, r)
    ensures |d.left| == |d.right| == |d.weight| == |ds|
  {
  }

  lemma DotsUnsplit(d: DotClaims, ds: seq<DotCircuit>, rand: seq<F>)
    requires |rand| >= 1 && DotsAt(d, ds, rand[1..])
    ensures |d.left| == |d.right| == |d.weight| == |ds|
    ensures UnsplitDots(CombineDots(d, |ds| / 2, rand[0]), ds, rand)
  {
    hide CombineDots, UnsplitDot, Mle, DotsAt;
    var k, r := |ds| / 2, rand[1..];
    DotLengths(d, ds, r);
    CombineDotsLength(d, k, rand[0]);
    assert rand == [rand[0]] + r;
    forall i | 0 <= i < k
      ensures UnsplitDot(CombineDots(d, k, rand[0]), i, ds[2 * i], ds[2 * i + 1], rand)
    {
      DotUnsplit(d, ds, rand[0], r, k, i);
    }
  }

  lemma BottomLayer(Vs: seq<Table>, n: nat)
    requires Uniform(Vs, n)
    ensures LayersAt(Vs, n, 0) == Vs
  {
  }

  /** Completeness of the batched product argument. The verifier, given the true products and dot
      products, accepts what the prover emits, follows the same transcript, and returns the extensions
      at `rand` of every circuit's input and of the unsplit dot-product tables. */
  method ProveBatch(circuits: seq<ProductCircuit>, ghost Vs: seq<Table>, ds: seq<DotCircuit>, n: nat,
                    transcript: Transcript)
    returns (proof: BatchProof, rand: seq<F>, ghost claims: seq<F>, ghost dots: seq<F>)
    requires CircuitsOf(circuits, Vs, n) && n >= 1 && DotsUniform(ds, n - 1)
    modifies transcript
    ensures |rand| == n
    ensures VerifyBatch(proof, ProductsOf(Vs), DotValues(ds, n - 1), n, old(transcript.log))
         == Some(Verified(claims, dots, rand, transcript.log))
    ensures ValuesAt(claims, Vs, rand)
    ensures UnsplitDots(dots, ds, rand)
  {
    hide CircuitOf, ValuesAt, DotsAt, VerifyLayers, DotValues, ProductsOf, UnsplitDots;
    proof, rand, claims := ProveLayers(circuits, Vs, ds, n, transcript);
    BottomLayer(Vs, n);
    DotsUnsplit(proof.dots, ds, rand);
    dots := CombineDots(proof.dots, |ds| / 2, rand[0]);
  }
}
