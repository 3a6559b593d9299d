/** Deterministic soundness of the batched product argument (spartan/src/product_tree.rs): if the claims
    that the verifier is left with are true of some tables, then the products it started from are the
    products of these tables - unless an explicit accident happened in some layer. */
module ProductSoundness {
  import opened Wrappers
  import opened Field
  import opened Vectors
  import opened Powers
  import opened Multilinear
  import opened Transcript
  import opened Sumcheck
  import opened SumcheckVerifier
  import opened BatchedProver
  import opened Combiners
  import opened ProductCircuit
  import opened ProductArgument
  import opened ProductProver
  import opened UnluckyPoints

  // ---- Sum-check on a batch ----

  function TripleIndex(np: nat, ns: nat, j: nat, k: nat): nat
    requires k < 3
  {
    if j < np then [j, np + j, 2 * np][k] else [np + 1 + j, np + 1 + j + ns, np + 1 + j + 2 * ns][k]
  }

  lemma TripleEntry<T>(s: seq<T>, np: nat, ns: nat, j: nat, k: nat)
    requires |s| == 2 * np + 1 + 3 * ns && j < np + ns && k < 3
    ensures TripleIndex(np, ns, j, k) < |s| && |Triple(s, np, ns, j)| == 3
    ensures Triple(s, np, ns, j)[k] == s[TripleIndex(np, ns, j, k)]
  {
  }

  lemma TripleValues(Ts: Instance, v: seq<F>, np: nat, ns: nat, r: seq<F>, j: nat, k: nat)
    requires ValuesAt(v, Ts, r) && |Ts| == 2 * np + 1 + 3 * ns && j < np + ns && k < 3
    ensures |Triple(Ts, np, ns, j)[k]| == Pow2(|r|)
    ensures Triple(v, np, ns, j)[k] == Mle(Triple(Ts, np, ns, j)[k], r)
  {
    hide Mle, ValuesAt, Triple, TripleIndex;
    SameLength(v, Ts, r);
    TripleEntry(v, np, ns, j, k);
    TripleEntry(Ts, np, ns, j, k);
    ValueOf(v, Ts, r, TripleIndex(np, ns, j, k));
  }

  lemma BatchSound(run: Run, Ts: Instance, np: nat, ns: nat, v: seq<F>)
    requires |Ts| == 2 * np + 1 + 3 * ns && Uniform(Ts, run.n)
    requires run.Accepting() && run.f == Product3 && run.Is == Triples(Ts, np, ns)
    requires ValuesAt(v, Ts, run.Challenges())
    requires Verify(run.messages, run.claim, run.n, run.degree, run.log).value.e == Products(run.cs, v, np, ns)
    ensures Cheated(run) || run.claim == Total(Product3, run.cs, run.Is, run.n)
  {
    hide Mle, Verify, Total, Product3, Triple, ValuesAt, BindsAll, Dot;
    var r := run.Challenges();
    SameLength(v, Ts, r);
    var vs := Triples(v, np, ns);
    forall j, k | 0 <= j < np + ns && 0 <= k < 3
      ensures vs[j][k] == Mle(run.Is[j][k], r)
    {
      TripleValues(Ts, v, np, ns, r, j, k);
    }
    TotalAtPoint(Product3, run.cs, run.Is, r, vs);
    assert Each(Product3, vs) == Cubes(v, np, ns);
    if run.claim != Total(Product3, run.cs, run.Is, run.n) {
      var i := run.Soundness();
    }
  }

  // ---- One layer ----

  /** The sums that a layer's claims should be. */
  ghost function TrueSums(lefts: seq<Table>, rights: seq<Table>, E: Table, ds: seq<DotCircuit>, n: nat): (v: seq<F>)
    requires |lefts| == |rights| && Uniform(lefts, n) && Uniform(rights, n) && |E| == Pow2(n) && DotsUniform(ds, n)
    ensures |v| == |lefts| + |ds|
  {
    seq<F>(|lefts|, j requires 0 <= j < |lefts| => HypercubeSum(Product3, [lefts[j], rights[j], E], n)) + DotValues(ds, n)
  }

  lemma TrueSumsAreHonest(lefts: seq<Table>, rights: seq<Table>, E: Table, ds: seq<DotCircuit>, n: nat)
    requires |lefts| == |rights| && Uniform(lefts, n) && Uniform(rights, n) && |E| == Pow2(n) && DotsUniform(ds, n)
    ensures var v := TrueSums(lefts, rights, E, ds, n);
            HonestClaims(v[..|lefts|], v[|lefts|..], lefts, rights, E, ds, n)
  {
    hide HypercubeSum, DotValue;
  }

  /** The tables and claims of one layer, as the verifier sees them. */
  datatype Scene = Scene(st: LayerState, i: nat, layer: LayerProof, values: seq<F>, dots: DotClaims,
                         lefts: seq<Table>, rights: seq<Table>, ds: seq<DotCircuit>)
  {
    ghost predicate Valid() {
      && |st.claims| == |lefts| == |rights| && |st.rand| == i
      && Uniform(lefts, i) && Uniform(rights, i) && DotsUniform(ds, i) && |values| == |ds|
    }

    ghost function All(): seq<F> { st.claims + values }

    ghost function Coefficients(): (cs: seq<F>)
      ensures |cs| == |All()|
    {
      Challenges(st.log, LayerCoefficients, |All()|)
    }

    ghost function Sumcheck(): Run
      requires Valid()
    {
      Run(Product3, Coefficients(), Triples(LayerTables(lefts, rights, EqTable(st.rand), ds), |lefts|, |ds|), i,
          layer.messages, Dot(All(), Coefficients()), 3, st.log + Squeezes(LayerCoefficients, |All()|))
    }

    ghost function Truth(): (v: seq<F>)
      requires Valid()
      ensures |v| == |All()|
    {
      TrueSums(lefts, rights, EqTable(st.rand), ds, i)
    }

    /** The claims are wrong, but their random combination is right. */
    ghost predicate UnluckyCoefficients()
      requires Valid()
    {
      All() != Truth() && Dot(All(), Coefficients()) == Dot(Truth(), Coefficients())
    }

    /** The values of the halves are wrong, but the line through them meets the true value at the challenge. */
    ghost predicate UnluckyJoin(st': LayerState)
      requires Valid()
    {
      && |st'.rand| == i + 1 && |layer.left| == |layer.right| == |lefts|
      && !(ValuesAt(layer.left, lefts, st'.rand[1..]) && ValuesAt(layer.right, rights, st'.rand[1..]))
      && ValuesAt(Interps(layer.left, layer.right, st'.rand[0]), Joined(lefts, rights), st'.rand)
    }

    ghost predicate Accident(st': LayerState)
      requires Valid()
    {
      Cheated(Sumcheck()) || UnluckyCoefficients() || UnluckyJoin(st')
    }

    lemma TotalIsTruth()
      requires Valid()
      ensures UniformBatch(Sumcheck().Is, i)
      ensures Total(Product3, Coefficients(), Sumcheck().Is, i) == Dot(Truth(), Coefficients())
    {
      hide EqTable, HonestClaims, Total, Dot, TrueSums;
      var E, v, np := EqTable(st.rand), Truth(), |lefts|;
      TrueSumsAreHonest(lefts, rights, E, ds, i);
      LayerTotal(v[..np], v[np..], lefts, rights, E, ds, i, Coefficients());
      assert v[..np] + v[np..] == v;
    }
  }

  lemma LayoutValues(left: seq<F>, right: seq<F>, eq: F, d: DotClaims, lefts: seq<Table>, rights: seq<Table>, E: Table,
                     ds: seq<DotCircuit>, r: seq<F>)
    requires |left| == |right| && |lefts| == |rights| && ValuesAt(left, lefts, r) && ValuesAt(right, rights, r)
    requires |d.left| == |d.right| == |d.weight|
    requires |E| == Pow2(|r|) && eq == Mle(E, r) && DotsAt(d, ds, r)
    ensures ValuesAt(Layout(left, right, eq, d.left, d.right, d.weight), LayerTables(lefts, rights, E, ds), r)
  {
    hide Mle, ValuesAt;
    ValuesAppend(left, lefts, right, rights, r);
    ValuesAppend(left + right, lefts + rights, [eq], [E], r) by {
      OneValue(eq, E, r);
    }
    var v, Ts := left + right + [eq], lefts + rights + [E];
    ValuesAppend(v, Ts, d.left, Lefts(ds), r);
    ValuesAppend(v + d.left, Ts + Lefts(ds), d.right, Rights(ds), r);
    ValuesAppend(v + d.left + d.right, Ts + Lefts(ds) + Rights(ds), d.weight, Weights(ds), r);
    SameLength(left, lefts, r);
    SameLength(right, rights, r);
    DotLengths(d, ds, r);
  }

  lemma OneValue(v: F, T: Table, r: seq<F>)
    requires |T| == Pow2(|r|) && v == Mle(T, r)
    ensures ValuesAt([v], [T], r)
  {
  }

  lemma ValuesAppend(a: seq<F>, A: seq<Table>, b: seq<F>, B: seq<Table>, r: seq<F>)
    requires ValuesAt(a, A, r) && ValuesAt(b, B, r)
    ensures ValuesAt(a + b, A + B, r)
  {
    hide Mle;
  }

  /** What an accepted layer shows. */
  lemma AcceptedLayer(sc: Scene, st': LayerState)
    requires sc.Valid() && |sc.dots.left| == |sc.dots.right| == |sc.dots.weight| == |sc.ds|
    requires VerifyLayer(sc.st, sc.i, sc.layer, sc.values, sc.dots, |sc.lefts|) == Some(st')
    ensures sc.Sumcheck().Accepting()
    ensures |st'.rand| == sc.i + 1 && st'.rand[1..] == sc.Sumcheck().Challenges()
    ensures |sc.layer.left| == |sc.layer.right| == |sc.lefts|
    ensures st'.claims == Interps(sc.layer.left, sc.layer.right, st'.rand[0])
    ensures var run := sc.Sumcheck();
            Verify(run.messages, run.claim, run.n, run.degree, run.log).value.e
            == Expected(run.cs, sc.layer.left, sc.layer.right, EqEval(sc.st.rand, st'.rand[1..]), sc.dots, |sc.dots.left|)
  {
    hide Verify, Dot, Expected, EqEval, ClaimLog, DotLog, Challenges, Squeezes, Interps, EqTable, Uniform, DotsUniform, TrueSums,
         LayerTables, Triples, UniformBatch;
    sc.TotalIsTruth();
    var run := sc.Sumcheck();
    var out := Verify(run.messages, run.claim, run.n, run.degree, run.log);
    assert out.Some?;
    assert st'.rand == [st'.rand[0]] + out.value.r;
  }

  /** One layer, backwards: true values below give true claims above, or an accident. */
  lemma LayerSound(sc: Scene, st': LayerState)
    requires sc.Valid() && st'.rand != []
    requires VerifyLayer(sc.st, sc.i, sc.layer, sc.values, sc.dots, |sc.lefts|) == Some(st')
    requires DotsAt(sc.dots, sc.ds, st'.rand[1..])
    requires ValuesAt(st'.claims, Joined(sc.lefts, sc.rights), st'.rand)
    ensures sc.Accident(st') || sc.All() == sc.Truth()
  {
    hide Verify, Dot, Expected, EqEval, Challenges, Squeezes, Interps, EqTable, DotsUniform, TrueSums, LayerTables, Triples,
         UniformBatch, VerifyLayer, ValuesAt, DotsAt, Joined, Mle, Total, Products, Layout, Cheated;
    DotLengths(sc.dots, sc.ds, st'.rand[1..]);
    AcceptedLayer(sc, st');
    var run, left, right, d := sc.Sumcheck(), sc.layer.left, sc.layer.right, sc.dots;
    var r, E := st'.rand[1..], EqTable(sc.st.rand);
    if ValuesAt(left, sc.lefts, r) && ValuesAt(right, sc.rights, r) {
      var eq := EqEval(sc.st.rand, r);
      MleEqTable(sc.st.rand, r);
      LayoutValues(left, right, eq, d, sc.lefts, sc.rights, E, sc.ds, r);
      ExpectedIsProducts(run.cs, left, right, eq, d);
      var Ts := LayerTables(sc.lefts, sc.rights, E, sc.ds);
      LayerTablesUniform(sc.lefts, sc.rights, E, sc.ds, sc.i);
      BatchSound(run, Ts, |sc.lefts|, |sc.ds|, Layout(left, right, eq, d.left, d.right, d.weight));
      sc.TotalIsTruth();
    }
  }

  // ---- All layers ----

  ghost function LosAt(Vs: seq<Table>, n: nat, k: nat): (Ts: seq<Table>)
    requires Uniform(Vs, n) && k < n
    ensures |Ts| == |Vs| && Uniform(Ts, n - k - 1)
  {
    hide Layer;
    assert forall j :: 0 <= j < |Vs| ==> |Layer(Vs[j], n, k)| == 2 * Pow2(n - k - 1);
    seq<Table>(|Vs|, j requires 0 <= j < |Vs| => Lo(Layer(Vs[j], n, k)))
  }

  ghost function HisAt(Vs: seq<Table>, n: nat, k: nat): (Ts: seq<Table>)
    requires Uniform(Vs, n) && k < n
    ensures |Ts| == |Vs| && Uniform(Ts, n - k - 1)
  {
    hide Layer;
    assert forall j :: 0 <= j < |Vs| ==> |Layer(Vs[j], n, k)| == 2 * Pow2(n - k - 1);
    seq<Table>(|Vs|, j requires 0 <= j < |Vs| => Hi(Layer(Vs[j], n, k)))
  }

  lemma JoinedHalves(Vs: seq<Table>, n: nat, k: nat)
    requires Uniform(Vs, n) && k < n
    ensures Joined(LosAt(Vs, n, k), HisAt(Vs, n, k)) == LayersAt(Vs, n, k)
  {
    hide Layer;
    forall j | 0 <= j < |Vs|
      ensures LosAt(Vs, n, k)[j] + HisAt(Vs, n, k)[j] == LayersAt(Vs, n, k)[j]
    {
      var W := Layer(Vs[j], n, k);
      assert Lo(W) + Hi(W) == W;
    }
  }

  /** The true sums of a layer are the values of the layer above it. */
  lemma TruthIsAbove(Vs: seq<Table>, n: nat, k: nat, rand: seq<F>, ds: seq<DotCircuit>, claims: seq<F>, values: seq<F>)
    requires Uniform(Vs, n) && k < n && |rand| == n - k - 1 && DotsUniform(ds, |rand|)
    requires |claims| == |Vs| && claims + values == TrueSums(LosAt(Vs, n, k), HisAt(Vs, n, k), EqTable(rand), ds, |rand|)
    ensures ValuesAt(claims, LayersAt(Vs, n, k + 1), rand) && values == DotValues(ds, |rand|)
  {
    hide Layer, HypercubeSum, Mle, EqTable, DotValue;
    var L, R := LosAt(Vs, n, k), HisAt(Vs, n, k);
    var sums := TrueSums(L, R, EqTable(rand), ds, |rand|);
    assert claims == sums[..|Vs|] && values == sums[|Vs|..];
    forall j | 0 <= j < |Vs|
      ensures claims[j] == Mle(LayersAt(Vs, n, k + 1)[j], rand)
    {
      LayerClaim(Vs[j], n, k, rand);
      assert claims[j] == HypercubeSum(Product3, [L[j], R[j], EqTable(rand)], |rand|);
    }
  }

  /** An accepted batch, together with tables that the final claims may be true of. */
  datatype Batch = Batch(proof: BatchProof, products: seq<F>, values: seq<F>, n: nat, log: Log, Vs: seq<Table>, ds: seq<DotCircuit>)
  {
    ghost predicate Valid() {
      && n >= 1 && |proof.layers| == n && Uniform(Vs, n) && |products| == |Vs|
      && DotsUniform(ds, n - 1) && |values| == |ds|
      && VerifyLayers(proof.layers, proof.dots, products, values, n, log).Some?
    }

    ghost function After(i: nat): Option<LayerState>
      requires i <= |proof.layers|
    {
      VerifyLayers(proof.layers[..i], proof.dots, products, values, n, log)
    }

    ghost function MyValues(i: nat): seq<F> { if i + 1 == n then values else [] }

    ghost function MyDots(i: nat): DotClaims { if i + 1 == n then proof.dots else NO_DOTS }

    ghost function MyCircuits(i: nat): seq<DotCircuit> { if i + 1 == n then ds else [] }

    lemma {:induction false} Accepted(i: nat)
      requires Valid() && i <= n
      ensures After(i).Some? && |After(i).value.claims| == |products| && |After(i).value.rand| == i
      ensures i > 0 ==> After(i - 1).Some?
                        && VerifyLayer(After(i - 1).value, i - 1, proof.layers[i - 1], MyValues(i - 1), MyDots(i - 1), |products|) == After(i)
      decreases n - i
    {
      hide VerifyLayer;
      assert proof.layers[..n] == proof.layers;
      if i < n {
        Accepted(i + 1);
      }
      Shape(i);
    }

    lemma {:induction false} Shape(i: nat)
      requires i <= |proof.layers| && After(i).Some?
      ensures |After(i).value.claims| == |products| && |After(i).value.rand| == i
      ensures i > 0 ==> After(i - 1).Some?
                        && VerifyLayer(After(i - 1).value, i - 1, proof.layers[i - 1], MyValues(i - 1), MyDots(i - 1), |products|) == After(i)
    {
      hide VerifyLayer;
      if i > 0 {
        assert proof.layers[..i][..i - 1] == proof.layers[..i - 1];
        LayerShape(After(i - 1).value, i - 1, proof.layers[i - 1], MyValues(i - 1), MyDots(i - 1), |products|);
      }
    }

    ghost function SceneAt(i: nat): Scene
      requires Valid() && i < n
    {
      Accepted(i);
      Scene(After(i).value, i, proof.layers[i], MyValues(i), MyDots(i), LosAt(Vs, n, n - 1 - i), HisAt(Vs, n, n - 1 - i), MyCircuits(i))
    }

    lemma SceneValid(i: nat)
      requires Valid() && i < n
      ensures SceneAt(i).Valid()
    {
      hide VerifyLayers, Layer;
      Accepted(i);
    }

    ghost predicate AccidentAt(i: nat)
      requires Valid()
    {
      i < n && After(i + 1).Some? && SceneAt(i).Valid() && SceneAt(i).Accident(After(i + 1).value)
    }

    /** The claims after i layers are the values of that layer of the true circuits. */
    ghost predicate TrueAfter(i: nat)
      requires Valid() && i <= n
    {
      After(i).Some? && ValuesAt(After(i).value.claims, LayersAt(Vs, n, n - i), After(i).value.rand)
    }

    lemma StepBack(i: nat)
      requires Valid() && i < n && TrueAfter(i + 1)
      requires i + 1 == n ==> After(n).value.rand != [] && DotsAt(proof.dots, ds, After(n).value.rand[1..])
      ensures AccidentAt(i) || (TrueAfter(i) && (i + 1 == n ==> values == DotValues(ds, n - 1)))
    {
      hide VerifyLayers, VerifyLayer, Layer, LosAt, HisAt, LayersAt, ValuesAt, DotsAt, TrueSums, EqTable, DotValues, Scene.Accident, Joined;
      Accepted(i);
      Accepted(i + 1);
      SceneValid(i);
      var sc, st', k := SceneAt(i), After(i + 1).value, n - 1 - i;
      JoinedHalves(Vs, n, k);
      if i + 1 < n {
        EmptyDots(st'.rand[1..]);
      }
      LayerSound(sc, st');
      if sc.All() == sc.Truth() {
        TruthIsAbove(Vs, n, k, sc.st.rand, sc.ds, sc.st.claims, sc.values);
      }
    }

    lemma {:induction false} Descend(i: nat)
      requires Valid() && i <= n && After(n).Some? && After(n).value.rand != []
      requires TrueAfter(n) && DotsAt(proof.dots, ds, After(n).value.rand[1..])
      ensures (TrueAfter(i) && (i < n ==> values == DotValues(ds, n - 1))) || exists k: nat :: AccidentAt(k)
      decreases n - i
    {
      hide VerifyLayers, DotsAt, ValuesAt, LayersAt, DotValues, Scene.Accident;
      if i < n {
        Descend(i + 1);
        if TrueAfter(i + 1) {
          StepBack(i);
        }
      }
    }
  }

  lemma LayerShape(st: LayerState, i: nat, layer: LayerProof, values: seq<F>, dots: DotClaims, np: nat)
    requires VerifyLayer(st, i, layer, values, dots, np).Some?
    ensures var st' := VerifyLayer(st, i, layer, values, dots, np).value;
            |st'.claims| == np && |st'.rand| == i + 1
  {
    hide Verify, Dot, Expected, EqEval, ClaimLog, DotLog, Challenges, Squeezes;
  }

  lemma EmptyDots(r: seq<F>)
    ensures DotsAt(NO_DOTS, [], r)
  {
  }

  lemma TopValues(Vs: seq<Table>, n: nat, products: seq<F>)
    requires Uniform(Vs, n) && ValuesAt(products, LayersAt(Vs, n, n), [])
    ensures products == ProductsOf(Vs)
  {
    hide Layer, Prod;
    forall j | 0 <= j < |Vs|
      ensures products[j] == Prod(Vs[j])
    {
      LastLayer(Vs[j], n);
      assert products[j] == Mle(LayersAt(Vs, n, n)[j], []);
    }
  }

  /** Soundness of the batched product argument, for every prover and every transcript. If the verifier accepts,
      and the claims it returns are the values of the tables Vs (and the dot-product claims those of ds), then
      the products and dot products it was given are the true ones, or some layer saw an accident. */
  lemma Soundness(b: Batch, v: Verified)
    requires b.n >= 1 && Uniform(b.Vs, b.n) && |b.products| == |b.Vs| && DotsUniform(b.ds, b.n - 1) && |b.values| == |b.ds|
    requires VerifyBatch(b.proof, b.products, b.values, b.n, b.log) == Some(v) && v.rand != []
    requires ValuesAt(v.claims, b.Vs, v.rand) && DotsAt(b.proof.dots, b.ds, v.rand[1..])
    ensures b.Valid()
    ensures (b.products == ProductsOf(b.Vs) && b.values == DotValues(b.ds, b.n - 1)) || exists k: nat :: b.AccidentAt(k)
  {
    hide VerifyLayers, DotsAt, ValuesAt, DotValues, ProductsOf, Batch.AccidentAt;
    assert b.proof.layers[..b.n] == b.proof.layers;
    b.Accepted(b.n);
    BottomLayer(b.Vs, b.n);
    b.Descend(0);
    if b.TrueAfter(0) {
      FirstOfNone(b.proof.layers, b.proof.dots, b.products, b.values, b.n, b.log);
      TopValues(b.Vs, b.n, b.products);
    }
  }

  lemma FirstOfNone(layers: seq<LayerProof>, dots: DotClaims, products: seq<F>, values: seq<F>, n: nat, log: Log)
    ensures VerifyLayers(layers[..0], dots, products, values, n, log) == Some(LayerState(products, [], log))
  {
  }

  // ---- How rare the accidents are ----

  /** Two different lines meet at most once, so at most one challenge joins wrong halves to a right value. */
  lemma LinesMeetOnce(a: F, b: F, a': F, b': F, t: F, t': F)
    requires a != a' || b != b'
    requires Interp(a, b, t) == Interp(a', b', t) && Interp(a, b, t') == Interp(a', b', t')
    ensures t == t'
  {
    var x, y := Sub(a, a'), Sub(b, b');
    InterpSub(a, a', b, b', t);
    InterpSub(a, a', b, b', t');
    SubIsZero(Interp(a, b, t), Interp(a', b', t));
    SubIsZero(Interp(a, b, t'), Interp(a', b', t'));
    SubIsZero(a, a');
    SubIsZero(b, b');
    if t != t' {
      LineWithTwoRoots(x, y, t, t');
    }
  }

  lemma JoinedAt(left: seq<F>, right: seq<F>, lefts: seq<Table>, rights: seq<Table>, t: F, r: seq<F>, j: nat)
    requires |left| == |right| == |lefts| == |rights| && Uniform(lefts, |r|) && Uniform(rights, |r|) && j < |left|
    requires ValuesAt(Interps(left, right, t), Joined(lefts, rights), [t] + r)
    ensures Interp(left[j], right[j], t) == Interp(Mle(lefts[j], r), Mle(rights[j], r), t)
  {
    hide Mle, Interp;
    MleJoined(lefts[j], rights[j], t, r);
    assert Interps(left, right, t)[j] == Mle(Joined(lefts, rights)[j], [t] + r);
  }

  /** At most one challenge makes a join unlucky, given the point below. */
  lemma OneUnluckyJoin(sc: Scene, a: LayerState, b: LayerState)
    requires sc.Valid() && sc.UnluckyJoin(a) && sc.UnluckyJoin(b) && a.rand[1..] == b.rand[1..]
    ensures a.rand == b.rand
  {
    hide Mle, Interps, Joined;
    var r, left, right := a.rand[1..], sc.layer.left, sc.layer.right;
    assert a.rand == [a.rand[0]] + r && b.rand == [b.rand[0]] + r;
    var j :| 0 <= j < |left| && (left[j] != Mle(sc.lefts[j], r) || right[j] != Mle(sc.rights[j], r));
    JoinedAt(left, right, sc.lefts, sc.rights, a.rand[0], r, j);
    JoinedAt(left, right, sc.lefts, sc.rights, b.rand[0], r, j);
    LinesMeetOnce(left[j], right[j], Mle(sc.lefts[j], r), Mle(sc.rights[j], r), a.rand[0], b.rand[0]);
  }

  lemma CancelLeft(d: F, x: F, y: F, p: F)
    requires Add(p, Mul(d, x)) == Add(p, Mul(d, y)) && x != y
    ensures d == 0
  {
    AddCommutes(p, Mul(d, x));
    AddCommutes(p, Mul(d, y));
    AddThenSub(Mul(d, x), p);
    AddThenSub(Mul(d, y), p);
    DistributesSub(d, x, y);
    SubIsZero(Mul(d, x), Mul(d, y));
    NoZeroDivisors(d, Sub(x, y));
    SubIsZero(x, y);
  }

  /** A coefficient that hides a wrong claim is unique, given the others. */
  lemma CoefficientIsPinned(claims: seq<F>, truth: seq<F>, cs: seq<F>, j: nat, x: F)
    requires |claims| == |truth| == |cs| && j < |cs| && claims[j] != truth[j]
    requires Dot(cs, claims) == Dot(cs, truth) && Dot(cs[j := x], claims) == Dot(cs[j := x], truth)
    ensures x == cs[j]
  {
    hide Dot;
    var d := Sub(x, cs[j]);
    AddSub(cs[j], x);
    DotUpdate(cs, j, d, claims);
    DotUpdate(cs, j, d, truth);
    CancelLeft(d, claims[j], truth[j], Dot(cs, claims));
    SubIsZero(x, cs[j]);
  }

  // ---- Surplus dot-product claims ----

  /** The verifier reads only as many right and weight claims as there are left ones. */
  function Trim(d: DotClaims): (t: DotClaims)
    ensures |t.left| == |d.left|
  {
    if DotsReadable(d) then DotClaims(d.left, d.right[..|d.left|], d.weight[..|d.left|]) else d
  }

  lemma {:induction false} TrimmedReads(cs: seq<F>, left: seq<F>, right: seq<F>, eq: F, d: DotClaims, k: nat)
    requires |left| == |right| && DotsReadable(d) && k <= |d.left| && |left| + k <= |cs|
    ensures DotLog(Trim(d), k) == DotLog(d, k) && Expected(cs, left, right, eq, Trim(d), k) == Expected(cs, left, right, eq, d, k)
    decreases k
  {
    if k > 0 {
      TrimmedReads(cs, left, right, eq, d, k - 1);
    }
  }

  lemma {:induction false} TrimmedCombines(d: DotClaims, k: nat, t: F)
    requires DotsReadable(d) && 2 * k <= |d.left|
    ensures CombineDots(Trim(d), k, t) == CombineDots(d, k, t)
  {
    if k > 0 {
      TrimmedCombines(d, k - 1, t);
    }
  }

  lemma TrimmedFinish(st: LayerState, layer: LayerProof, cs: seq<F>, d: DotClaims, np: nat, sc: State)
    ensures FinishLayer(st, layer, cs, Trim(d), np, sc) == FinishLayer(st, layer, cs, d, np, sc)
  {
    hide Expected, EqEval, ClaimLog, DotLog, Interps;
    if |layer.left| == np && |layer.right| == np && |st.rand| == |sc.r| && DotsReadable(d) && np + |d.left| <= |cs| {
      TrimmedReads(cs, layer.left, layer.right, EqEval(st.rand, sc.r), d, |d.left|);
    }
  }

  lemma TrimmedLayer(st: LayerState, i: nat, layer: LayerProof, values: seq<F>, d: DotClaims, np: nat)
    ensures VerifyLayer(st, i, layer, values, Trim(d), np) == VerifyLayer(st, i, layer, values, d, np)
    ensures VerifyLayer(st, i, layer, values, d, np).Some? ==> DotsReadable(d) && np + |d.left| <= |st.claims| + |values|
  {
    hide Verify, Dot, Expected, EqEval, ClaimLog, DotLog, Squeezes, Interps;
    var all := st.claims + values;
    var cs, log := Challenges(st.log, LayerCoefficients, |all|), st.log + Squeezes(LayerCoefficients, |all|);
    var out := Verify(layer.messages, Dot(all, cs), i, 3, log);
    if out.Some? {
      TrimmedFinish(st, layer, cs, d, np, out.value);
    }
  }

  lemma {:induction false} TrimmedLayers(layers: seq<LayerProof>, d: DotClaims, products: seq<F>, values: seq<F>, n: nat, log: Log)
    ensures VerifyLayers(layers, Trim(d), products, values, n, log) == VerifyLayers(layers, d, products, values, n, log)
    decreases |layers|
  {
    hide VerifyLayer;
    if layers != [] {
      var i := |layers| - 1;
      TrimmedLayers(layers[..i], d, products, values, n, log);
      var before := VerifyLayers(layers[..i], d, products, values, n, log);
      if before.Some? && i + 1 == n {
        TrimmedLayer(before.value, i, layers[i], values, d, |products|);
      }
    }
  }

  /** Surplus claims change nothing, and what is left has one entry for each dot product. */
  lemma TrimmedBatch(proof: BatchProof, products: seq<F>, values: seq<F>, n: nat, log: Log, v: Verified, k: nat)
    requires n >= 1 && VerifyBatch(proof, products, values, n, log) == Some(v) && |values| == 2 * k
    ensures VerifyBatch(proof.(dots := Trim(proof.dots)), products, values, n, log) == Some(v)
    ensures var d := Trim(proof.dots);
            |d.left| == |d.right| == |d.weight| == |values|
  {
    hide VerifyLayer, VerifyLayers, CombineDots;
    TrimmedLayers(proof.layers, proof.dots, products, values, n, log);
    LastLayerReads(proof, products, values, n, log);
    TrimmedCombines(proof.dots, |values| / 2, v.rand[0]);
  }

  lemma LastLayerReads(proof: BatchProof, products: seq<F>, values: seq<F>, n: nat, log: Log)
    requires n >= 1 && |proof.layers| == n && VerifyLayers(proof.layers, proof.dots, products, values, n, log).Some?
    ensures DotsReadable(proof.dots) && |proof.dots.left| <= |values|
  {
    hide VerifyLayer;
    var i := n - 1;
    var b := Batch(proof, products, values, n, log, [], []);
    assert proof.layers[..n] == proof.layers;
    b.Shape(n);
    b.Shape(i);
    TrimmedLayer(b.After(i).value, i, proof.layers[i], values, proof.dots, |products|);
  }
}
