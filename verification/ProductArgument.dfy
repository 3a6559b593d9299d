/** The batched product argument (`ProductCircuitEvalProofBatched` in spartan/src/product_tree.rs):
    from the claimed products down to claims about the inputs, one sum-check per layer. The verifier. */
module ProductArgument {
  import opened Wrappers
  import opened Field
  import opened Vectors
  import opened Powers
  import opened Multilinear
  import opened Transcript
  import opened DensePolynomial
  import opened SumcheckVerifier

  /** Final values of the dot-product instances, proved together with the bottom layer. */
  datatype DotClaims = DotClaims(left: seq<F>, right: seq<F>, weight: seq<F>)

  const NO_DOTS := DotClaims([], [], [])

  datatype LayerProof = LayerProof(messages: seq<seq<F>>, left: seq<F>, right: seq<F>)

  datatype BatchProof = BatchProof(layers: seq<LayerProof>, dots: DotClaims)

  /** Between layers: the claims still to be checked, the point they are about, the transcript. */
  datatype LayerState = LayerState(claims: seq<F>, rand: seq<F>, log: Log)

  function ClaimLog(left: seq<F>, right: seq<F>): Log
    requires |left| == |right|
  {
    if left == [] then []
    else
      var m := |left| - 1;
      ClaimLog(left[..m], right[..m]) + [Scalar(ProdLeft, left[m]), Scalar(ProdRight, right[m])]
  }

  /** The verifier reads as many entries as the left list has; shorter lists are an index error. */
  predicate DotsReadable(d: DotClaims) {
    |d.left| <= |d.right| && |d.left| <= |d.weight|
  }

  function DotLog(d: DotClaims, k: nat): Log
    requires DotsReadable(d) && k <= |d.left|
  {
    if k == 0 then []
    else
      DotLog(d, k - 1)
      + [Scalar(DotLeft, d.left[k - 1]), Scalar(DotRight, d.right[k - 1]), Scalar(DotWeight, d.weight[k - 1])]
  }

  /** The weighted products of the layer's claims. */
  function ExpectedProducts(cs: seq<F>, left: seq<F>, right: seq<F>, eq: F): F
    requires |left| == |right| <= |cs|
  {
    if left == [] then 0
    else
      var m := |left| - 1;
      Add(ExpectedProducts(cs, left[..m], right[..m], eq), Mul(cs[m], Mul(Mul(left[m], right[m]), eq)))
  }

  /** The value the layer's sum-check must end with; the dot products are added after np products. */
  function Expected(cs: seq<F>, left: seq<F>, right: seq<F>, eq: F, d: DotClaims, k: nat): F
    requires |left| == |right| && DotsReadable(d) && k <= |d.left| && |left| + k <= |cs|
  {
    if k == 0 then ExpectedProducts(cs, left, right, eq)
    else
      Add(Expected(cs, left, right, eq, d, k - 1),
          Mul(Mul(Mul(cs[|left| + k - 1], d.left[k - 1]), d.right[k - 1]), d.weight[k - 1]))
  }

  function Interps(left: seq<F>, right: seq<F>, t: F): seq<F>
    requires |left| == |right|
  {
    Lerp(left, right, t)
  }

  /** What the verifier does after a layer's sum-check returned `sc`. */
  function FinishLayer(st: LayerState, layer: LayerProof, cs: seq<F>, dots: DotClaims, np: nat, sc: State)
    : Option<LayerState>
  {
    if |layer.left| != np || |layer.right| != np || |st.rand| != |sc.r| then None
    else if !DotsReadable(dots) || np + |dots.left| > |cs| then None
    else if Expected(cs, layer.left, layer.right, EqEval(st.rand, sc.r), dots, |dots.left|) != sc.e then None
    else
      var log := sc.log + ClaimLog(layer.left, layer.right) + DotLog(dots, |dots.left|);
      var t := Challenge(log, LayerChallenge);
      Some(LayerState(Interps(layer.left, layer.right, t), [t] + sc.r, log + [Squeeze(LayerChallenge)]))
  }

  /** One layer of the verifier; `values` are the dot-product claims added at this layer. */
  function VerifyLayer(st: LayerState, i: nat, layer: LayerProof, values: seq<F>, dots: DotClaims, np: nat)
    : Option<LayerState>
  {
    var all := st.claims + values;
    var cs := Challenges(st.log, LayerCoefficients, |all|);
    var log := st.log + Squeezes(LayerCoefficients, |all|);
    match Verify(layer.messages, Dot(all, cs), i, 3, log)
    case None => None
    case Some(sc) => FinishLayer(st, layer, cs, dots, np, sc)
  }

  /** The given layers, the first of n; the dot products enter with the n-th. */
  function VerifyLayers(layers: seq<LayerProof>, dots: DotClaims, products: seq<F>, values: seq<F>, n: nat, log: Log)
    : Option<LayerState>
  {
    if layers == [] then Some(LayerState(products, [], log))
    else
      var i := |layers| - 1;
      match VerifyLayers(layers[..i], dots, products, values, n, log)
      case None => None
      case Some(st) =>
        if i + 1 == n then VerifyLayer(st, i, layers[i], values, dots, |products|)
        else VerifyLayer(st, i, layers[i], [], NO_DOTS, |products|)
  }

  /** The claims about the unsplit dot products: entries 2i and 2i+1 are the halves of one. */
  function CombineDots(d: DotClaims, k: nat, t: F): seq<F>
    requires 2 * k <= |d.left| && 2 * k <= |d.right| && 2 * k <= |d.weight|
  {
    if k == 0 then []
    else
      CombineDots(d, k - 1, t)
      + [Interp(d.left[2 * k - 2], d.left[2 * k - 1], t),
         Interp(d.right[2 * k - 2], d.right[2 * k - 1], t),
         Interp(d.weight[2 * k - 2], d.weight[2 * k - 1], t)]
  }

  datatype Verified = Verified(claims: seq<F>, dots: seq<F>, rand: seq<F>, log: Log)

  /** `ProductCircuitEvalProofBatched::verify` on inputs of length 2^n. */
  function VerifyBatch(proof: BatchProof, products: seq<F>, values: seq<F>, n: nat, log: Log): Option<Verified> {
    if |proof.layers| != n then None
    else
      match VerifyLayers(proof.layers, proof.dots, products, values, n, log)
      case None => None
      case Some(st) =>
        var d, k := proof.dots, |values| / 2;
        if n == 0 then Some(Verified(st.claims, [], st.rand, st.log))
        else if 2 * k > |d.left| || 2 * k > |d.right| || 2 * k > |d.weight| || st.rand == [] then None
        else Some(Verified(st.claims, CombineDots(d, k, st.rand[0]), st.rand, st.log))
  }

  // ---- The verifier's loops ----

  method AppendClaims(left: seq<F>, right: seq<F>, transcript: Transcript)
    requires |left| == |right|
    modifies transcript
    ensures transcript.log == old(transcript.log) + ClaimLog(left, right)
  {
    for i := 0 to |left|
      invariant transcript.log == old(transcript.log) + ClaimLog(left[..i], right[..i])
    {
      assert left[..i + 1][..i] == left[..i] && right[..i + 1][..i] == right[..i];
      transcript.Append(Scalar(ProdLeft, left[i]));
      transcript.Append(Scalar(ProdRight, right[i]));
    }
    assert left[..|left|] == left && right[..|left|] == right;
  }

  method AppendDots(d: DotClaims, transcript: Transcript)
    requires DotsReadable(d)
    modifies transcript
    ensures transcript.log == old(transcript.log) + DotLog(d, |d.left|)
  {
    for i := 0 to |d.left|
      invariant transcript.log == old(transcript.log) + DotLog(d, i)
    {
      transcript.Append(Scalar(DotLeft, d.left[i]));
      transcript.Append(Scalar(DotRight, d.right[i]));
      transcript.Append(Scalar(DotWeight, d.weight[i]));
    }
  }

  /** The accumulation of `claim_expected`. */
  method ExpectedValue(cs: seq<F>, left: seq<F>, right: seq<F>, eq: F, d: DotClaims) returns (v: F)
    requires |left| == |right| && DotsReadable(d) && |left| + |d.left| <= |cs|
    ensures v == Expected(cs, left, right, eq, d, |d.left|)
  {
    hide Mul, Add;
    v := 0;
    for i := 0 to |left|
      invariant v == ExpectedProducts(cs, left[..i], right[..i], eq)
    {
      assert left[..i + 1][..i] == left[..i] && right[..i + 1][..i] == right[..i];
      v := Add(v, Mul(cs[i], Mul(Mul(left[i], right[i]), eq)));
    }
    assert left[..|left|] == left && right[..|left|] == right;
    for i := 0 to |d.left|
      invariant v == Expected(cs, left, right, eq, d, i)
    {
      v := Add(v, Mul(Mul(Mul(cs[|left| + i], d.left[i]), d.right[i]), d.weight[i]));
    }
  }

  method VerifyLayerProof(claims: seq<F>, rand: seq<F>, i: nat, layer: LayerProof, values: seq<F>, dots: DotClaims, np: nat,
                          transcript: Transcript)
    returns (result: Option<(seq<F>, seq<F>)>)
    modifies transcript
    ensures match VerifyLayer(LayerState(claims, rand, old(transcript.log)), i, layer, values, dots, np)
            case None => result == None
            case Some(st) => result == Some((st.claims, st.rand)) && transcript.log == st.log
  {
    hide Verify, Dot, Expected, EqEval, ClaimLog, DotLog, Challenge, Challenges, Squeezes;
    var all := claims + values;
    var cs := transcript.ChallengeVector(LayerCoefficients, |all|);
    var claim := DotProduct(all, cs);
    var sc := VerifyProof(layer.messages, claim, i, 3, transcript);
    if sc == None {
      return None;
    }
    var (e, r) := sc.value;
    if |layer.left| != np || |layer.right| != np || |rand| != |r| || !DotsReadable(dots) || np + |dots.left| > |cs| {
      return None;
    }
    AppendClaims(layer.left, layer.right, transcript);
    var expected := ExpectedValue(cs, layer.left, layer.right, EqEval(rand, r), dots);
    AppendDots(dots, transcript);
    if expected != e {
      return None;
    }
    var t := transcript.ChallengeScalar(LayerChallenge);
    result := Some((Interps(layer.left, layer.right, t), [t] + r));
  }

  lemma {:induction false} LayersNone(layers: seq<LayerProof>, dots: DotClaims, products: seq<F>, values: seq<F>, n: nat,
                                      log: Log, i: nat)
    requires i <= |layers|
    requires VerifyLayers(layers[..i], dots, products, values, n, log) == None
    ensures VerifyLayers(layers, dots, products, values, n, log) == None
    decreases |layers| - i
  {
    hide VerifyLayer;
    if i == |layers| {
      assert layers[..i] == layers;
    } else {
      assert layers[..i + 1][..i] == layers[..i];
      LayersNone(layers, dots, products, values, n, log, i + 1);
    }
  }

  method CombineDotsLoop(d: DotClaims, k: nat, t: F) returns (dots: seq<F>)
    requires 2 * k <= |d.left| && 2 * k <= |d.right| && 2 * k <= |d.weight|
    ensures dots == CombineDots(d, k, t)
  {
    hide Interp;
    dots := [];
    for i := 0 to k
      invariant dots == CombineDots(d, i, t)
    {
      dots := dots
        + [Interp(d.left[2 * i], d.left[2 * i + 1], t),
           Interp(d.right[2 * i], d.right[2 * i + 1], t),
           Interp(d.weight[2 * i], d.weight[2 * i + 1], t)];
    }
  }

  /** `ProductCircuitEvalProofBatched::verify`; a failed assertion is a None result. */
  method VerifyBatchProof(proof: BatchProof, products: seq<F>, values: seq<F>, len: nat, transcript: Transcript)
    returns (result: Option<(seq<F>, seq<F>, seq<F>)>)
    modifies transcript
    ensures match VerifyBatch(proof, products, values, Log2(len), old(transcript.log))
            case None => result == None
            case Some(v) => result == Some((v.claims, v.dots, v.rand)) && transcript.log == v.log
  {
    hide VerifyLayer, CombineDots;
    var n := Log2(len);
    if |proof.layers| != n {
      return None;
    }
    var layers := proof.layers;
    var claims, rand, i := products, [], 0;
    ghost var log := transcript.log;
    while i < n
      invariant 0 <= i <= n
      invariant VerifyLayers(layers[..i], proof.dots, products, values, n, log) == Some(LayerState(claims, rand, transcript.log))
    {
      assert layers[..i + 1][..i] == layers[..i];
      var vs, ds := [], NO_DOTS;
      if i == n - 1 {
        vs, ds := values, proof.dots;
      }
      var next := VerifyLayerProof(claims, rand, i, layers[i], vs, ds, |products|, transcript);
      if next == None {
        LayersNone(layers, proof.dots, products, values, n, log, i + 1);
        return None;
      }
      claims, rand := next.value.0, next.value.1;
      i := i + 1;
    }
    assert layers[..n] == layers;
    var d, k := proof.dots, |values| / 2;
    if n == 0 {
      return Some((claims, [], rand));
    }
    if 2 * k > |d.left| || 2 * k > |d.right| || 2 * k > |d.weight| || rand == [] {
      return None;
    }
    var dots := CombineDotsLoop(d, k, rand[0]);
    result := Some((claims, dots, rand));
  }
}
