/** What had been said when a challenge was drawn (spartan/src/transcript.rs and its callers).

    Every challenge is the hash of the transcript up to its squeeze. Two accepted runs from the same start whose
    transcripts agree up to some point were sent the same messages up to that point. So a challenge depends on everything
    that was sent before it, and whoever chose these messages had to choose them first. */
module Histories {
  import opened Wrappers
  import opened Field
  import opened Vectors
  import opened Powers
  import opened Multilinear
  import opened UniPoly
  import opened Transcript
  import opened DensePolynomial
  import opened Merging
  import opened SumcheckVerifier
  import opened Combiners
  import opened ProductArgument
  import opened SparseNetwork
  import opened Fingerprint
  import opened Commitments
  import opened Crr1csVerifier
  import opened SparseEvalVerifier
  import opened Snark
  import CcsFolding

  /** Two beginnings of one transcript are equal if they are equally long. */
  lemma SameBeginning(a: Log, b: Log, whole: Log)
    requires a <= whole && b <= whole && |a| == |b|
    ensures a == b
  {
  }

  // ---- Sum-check ----

  /** At this place in the transcript stands the polynomial that the message compresses, followed by the squeeze of t. */
  ghost predicate Heard(log: Log, at: nat, message: seq<F>, degree: nat, t: F) {
    && at + 1 < |log| && degree >= 1
    && log[at].Polynomial? && |log[at].coefficients| == degree + 1 && Compress(log[at].coefficients) == message
    && log[at + 1] == Squeeze(RoundChallenge) && t == HASH(log[..at + 2])
  }

  lemma HeardLater(log: Log, whole: Log, at: nat, message: seq<F>, degree: nat, t: F)
    requires Heard(log, at, message, degree, t) && log <= whole
    ensures Heard(whole, at, message, degree, t)
  {
    assert log[..at + 2] == whole[..at + 2];
  }

  lemma RoundHeard(st: State, message: seq<F>, degree: nat, next: State)
    requires Round(st, message, degree) == Some(next)
    ensures st.log <= next.log && |next.log| == |st.log| + 2
    ensures |next.r| == |st.r| + 1 && next.r[..|st.r|] == st.r
    ensures Heard(next.log, |st.log|, message, degree, next.r[|st.r|])
  {
    hide Eval, EvalAtOne;
    var g := Decompress(message, st.e);
    assert Compress(g) == message;
    assert next.log == st.log + [Polynomial(g), Squeeze(RoundChallenge)];
    assert next.log[..|st.log| + 2] == next.log;
  }

  /** The transcript of a sum-check alternates between the polynomials that the messages compress and the squeezes of the
      challenges; each challenge is the hash of the transcript up to its squeeze. */
  lemma {:induction false} RoundsHeard(messages: seq<seq<F>>, claim: F, degree: nat, log: Log, st: State)
    requires Rounds(messages, claim, degree, log) == Some(st)
    ensures log <= st.log && |st.log| == |log| + 2 * |messages| && |st.r| == |messages|
    ensures forall i :: 0 <= i < |messages| ==> Heard(st.log, |log| + 2 * i, messages[i], degree, st.r[i])
  {
    hide Round, Heard;
    if messages != [] {
      var n := |messages| - 1;
      var before := Rounds(messages[..n], claim, degree, log).value;
      RoundsHeard(messages[..n], claim, degree, log, before);
      RoundHeard(before, messages[n], degree, st);
      forall i | 0 <= i < |messages|
        ensures Heard(st.log, |log| + 2 * i, messages[i], degree, st.r[i])
      {
        if i < n {
          assert messages[..n][i] == messages[i] && st.r[..n][i] == st.r[i];
          HeardLater(before.log, st.log, |log| + 2 * i, messages[i], degree, st.r[i]);
        }
      }
    }
  }

  /** Challenge k of a sum-check is drawn after the first k messages are fixed: if two runs from the same start heard the
      same up to its squeeze, these messages and challenges are the same. */
  lemma RoundsPinned(messages: seq<seq<F>>, claim: F, messages': seq<seq<F>>, claim': F, degree: nat, log: Log, st: State, st': State,
                     k: nat)
    requires Rounds(messages, claim, degree, log) == Some(st) && Rounds(messages', claim', degree, log) == Some(st')
    requires k <= |messages| && k <= |messages'|
    requires |log| + 2 * k <= |st.log| && |log| + 2 * k <= |st'.log| && st.log[..|log| + 2 * k] == st'.log[..|log| + 2 * k]
    ensures k <= |st.r| && k <= |st'.r| && messages[..k] == messages'[..k] && st.r[..k] == st'.r[..k]
  {
    hide Heard, Rounds;
    RoundsHeard(messages, claim, degree, log, st);
    RoundsHeard(messages', claim', degree, log, st');
    forall i | 0 <= i < k
      ensures messages[i] == messages'[i] && st.r[i] == st'.r[i]
    {
      SameHeard(st.log, st'.log, |log| + 2 * k, |log| + 2 * i, messages[i], messages'[i], degree, st.r[i], st'.r[i]);
    }
  }

  lemma SameHeard(log: Log, log': Log, upTo: nat, at: nat, message: seq<F>, message': seq<F>, degree: nat, t: F, t': F)
    requires Heard(log, at, message, degree, t) && Heard(log', at, message', degree, t')
    requires at + 2 <= upTo <= |log| && upTo <= |log'| && log[..upTo] == log'[..upTo]
    ensures message == message' && t == t'
  {
    assert log[..upTo][at] == log'[..upTo][at];
    assert log[..upTo][..at + 2] == log[..at + 2] && log'[..upTo][..at + 2] == log'[..at + 2];
  }

  /** The same for a verifier that knows the number of rounds: equal transcripts after the sum-check. */
  lemma VerifyPinned(messages: seq<seq<F>>, claim: F, messages': seq<seq<F>>, claim': F, n: nat, degree: nat, log: Log, st: State,
                     st': State, whole: Log)
    requires Verify(messages, claim, n, degree, log) == Some(st) && Verify(messages', claim', n, degree, log) == Some(st')
    requires st.log <= whole && st'.log <= whole
    ensures messages == messages' && st.log == st'.log && st.r == st'.r
  {
    hide Rounds;
    RoundsHeard(messages, claim, degree, log, st);
    RoundsHeard(messages', claim', degree, log, st');
    SameBeginning(st.log, st'.log, whole);
    assert st.log[..|log| + 2 * n] == st.log;
    RoundsPinned(messages, claim, messages', claim', degree, log, st, st', n);
    assert messages[..n] == messages && messages'[..n] == messages' && st.r[..n] == st.r && st'.r[..n] == st'.r;
  }

  // ---- The product argument ----

  lemma {:induction false} ClaimLogEntries(left: seq<F>, right: seq<F>)
    requires |left| == |right|
    ensures |ClaimLog(left, right)| == 2 * |left|
    ensures forall j :: 0 <= j < |left| ==>
              ClaimLog(left, right)[2 * j] == Scalar(ProdLeft, left[j]) && ClaimLog(left, right)[2 * j + 1] == Scalar(ProdRight, right[j])
  {
    if left != [] {
      var m := |left| - 1;
      ClaimLogEntries(left[..m], right[..m]);
    }
  }

  lemma {:induction false} DotLogEntries(d: DotClaims, k: nat)
    requires DotsReadable(d) && k <= |d.left|
    ensures |DotLog(d, k)| == 3 * k
    ensures forall j :: 0 <= j < k ==>
              && DotLog(d, k)[3 * j] == Scalar(DotLeft, d.left[j]) && DotLog(d, k)[3 * j + 1] == Scalar(DotRight, d.right[j])
              && DotLog(d, k)[3 * j + 2] == Scalar(DotWeight, d.weight[j])
  {
    if k > 0 {
      DotLogEntries(d, k - 1);
    }
  }

  lemma SameClaims(left: seq<F>, right: seq<F>, left': seq<F>, right': seq<F>)
    requires |left| == |right| == |left'| == |right'| && ClaimLog(left, right) == ClaimLog(left', right')
    ensures left == left' && right == right'
  {
    ClaimLogEntries(left, right);
    ClaimLogEntries(left', right');
    hide ClaimLog;
    forall j | 0 <= j < |left|
      ensures left[j] == left'[j] && right[j] == right'[j]
    {
      assert Scalar(ProdLeft, left[j]) == Scalar(ProdLeft, left'[j]) && Scalar(ProdRight, right[j]) == Scalar(ProdRight, right'[j]);
    }
  }

  /** The part of the dot-product claims that is read. */
  ghost function Read(d: DotClaims): DotClaims
    requires DotsReadable(d)
  {
    DotClaims(d.left, d.right[..|d.left|], d.weight[..|d.left|])
  }

  lemma SameDots(d: DotClaims, d': DotClaims)
    requires DotsReadable(d) && DotsReadable(d') && DotLog(d, |d.left|) == DotLog(d', |d'.left|)
    ensures Read(d) == Read(d')
  {
    DotLogEntries(d, |d.left|);
    DotLogEntries(d', |d'.left|);
    hide DotLog;
    forall j | 0 <= j < |d.left|
      ensures d.left[j] == d'.left[j] && d.right[j] == d'.right[j] && d.weight[j] == d'.weight[j]
    {
      assert Scalar(DotLeft, d.left[j]) == Scalar(DotLeft, d'.left[j]);
      assert Scalar(DotRight, d.right[j]) == Scalar(DotRight, d'.right[j]);
      assert Scalar(DotWeight, d.weight[j]) == Scalar(DotWeight, d'.weight[j]);
    }
  }

  /** One layer of the product argument: the squeezes of the coefficients, the sum-check, all the claims, and then the
      squeeze of the challenge that joins the claims, which is the hash of all this. */
  lemma LayerHeard(st: LayerState, i: nat, layer: LayerProof, values: seq<F>, dots: DotClaims, np: nat, next: LayerState)
    returns (sc: State)
    requires VerifyLayer(st, i, layer, values, dots, np) == Some(next)
    ensures |layer.left| == |layer.right| == np && DotsReadable(dots)
    ensures var start := st.log + Squeezes(LayerCoefficients, |st.claims| + |values|);
            && |start| == |st.log| + |st.claims| + |values|
            && Verify(layer.messages, Dot(st.claims + values, Challenges(st.log, LayerCoefficients, |st.claims| + |values|)), i, 3, start)
               == Some(sc)
            && |sc.log| == |start| + 2 * i
    ensures st.log <= sc.log <= next.log && |next.claims| == np
    ensures next.log == sc.log + ClaimLog(layer.left, layer.right) + DotLog(dots, |dots.left|) + [Squeeze(LayerChallenge)]
    ensures next.rand == [HASH(next.log)] + sc.r
  {
    hide Verify, Expected, EqEval, ClaimLog, DotLog, Dot, Challenges;
    var n := |st.claims| + |values|;
    assert |st.claims + values| == n;
    var start := st.log + Squeezes(LayerCoefficients, n);
    sc := Verify(layer.messages, Dot(st.claims + values, Challenges(st.log, LayerCoefficients, n)), i, 3, start).value;
    VerifyExtends(layer.messages, Dot(st.claims + values, Challenges(st.log, LayerCoefficients, n)), i, 3, start, sc);
  }

  lemma VerifyExtends(messages: seq<seq<F>>, claim: F, n: nat, degree: nat, log: Log, st: State)
    requires Verify(messages, claim, n, degree, log) == Some(st)
    ensures log <= st.log && |st.log| == |log| + 2 * n
  {
    hide Rounds;
    RoundsHeard(messages, claim, degree, log, st);
  }

  lemma {:induction false} NoSqueezeInDots(d: DotClaims, k: nat, tag: Tag)
    requires DotsReadable(d) && k <= |d.left|
    ensures Squeeze(tag) !in DotLog(d, k)
  {
    if k > 0 {
      NoSqueezeInDots(d, k - 1, tag);
    }
  }

  lemma SameUpToEnd(b: Log, b': Log, end: Message, tail: Log)
    requires b + [end] <= tail && b' + [end] <= tail && end !in b && end !in b'
    ensures b == b'
  {
    assert (b + [end])[|b|] == end && (b' + [end])[|b'|] == end;
    assert forall j :: 0 <= j < |b| ==> tail[j] == b[j];
    assert forall j :: 0 <= j < |b'| ==> tail[j] == b'[j];
  }

  lemma Rest(start: Log, part: Log, whole: Log)
    requires start + part <= whole
    ensures start <= whole && part <= whole[|start|..]
  {
    assert forall j :: 0 <= j < |part| ==> whole[|start| + j] == (start + part)[|start| + j] == part[j];
  }

  /** What stands in one transcript between the same beginning and the first of the same message is the same. */
  lemma SameMiddle(start: Log, a: Log, b: Log, a': Log, b': Log, end: Message, whole: Log)
    requires start + a + b + [end] <= whole && start + a' + b' + [end] <= whole
    requires |a| == |a'| && end !in b && end !in b'
    ensures a == a' && b == b'
  {
    assert start + a + b + [end] == (start + a) + (b + [end]) && start + a' + b' + [end] == (start + a') + (b' + [end]);
    Rest(start + a, b + [end], whole);
    Rest(start + a', b' + [end], whole);
    SameBeginning(start + a, start + a', whole);
    SameUpToEnd(b, b', end, whole[|start + a|..]);
    assert a == (start + a)[|start|..] && a' == (start + a')[|start|..];
  }

  /** The challenge at the end of a layer is drawn after everything that was sent in the layer. */
  lemma LayerPinned(st: LayerState, st': LayerState, i: nat, layer: LayerProof, layer': LayerProof, values: seq<F>, values': seq<F>,
                    dots: DotClaims, dots': DotClaims, np: nat, next: LayerState, next': LayerState, whole: Log)
    requires VerifyLayer(st, i, layer, values, dots, np) == Some(next) && VerifyLayer(st', i, layer', values', dots', np) == Some(next')
    requires st.log == st'.log && |st.claims| == |st'.claims| && |values| == |values'|
    requires next.log <= whole && next'.log <= whole
    ensures layer == layer' && DotsReadable(dots) && DotsReadable(dots') && Read(dots) == Read(dots')
    ensures next.log == next'.log && next.rand == next'.rand && |next.claims| == |next'.claims| == np
  {
    hide VerifyLayer, Verify, ClaimLog, DotLog, Dot, Challenges, Squeezes, Read;
    var sc := LayerHeard(st, i, layer, values, dots, np, next);
    var sc' := LayerHeard(st', i, layer', values', dots', np, next');
    var start := st.log + Squeezes(LayerCoefficients, |st.claims| + |values|);
    VerifyPinned(layer.messages, Dot(st.claims + values, Challenges(st.log, LayerCoefficients, |st.claims| + |values|)),
                 layer'.messages, Dot(st'.claims + values', Challenges(st.log, LayerCoefficients, |st.claims| + |values|)),
                 i, 3, start, sc, sc', whole);
    ClaimLogSize(layer.left, layer.right);
    ClaimLogSize(layer'.left, layer'.right);
    NoSqueezeInDots(dots, |dots.left|, LayerChallenge);
    NoSqueezeInDots(dots', |dots'.left|, LayerChallenge);
    SameMiddle(sc.log, ClaimLog(layer.left, layer.right), DotLog(dots, |dots.left|),
               ClaimLog(layer'.left, layer'.right), DotLog(dots', |dots'.left|), Squeeze(LayerChallenge), whole);
    SameClaims(layer.left, layer.right, layer'.left, layer'.right);
    SameDots(dots, dots');
  }

  lemma ClaimLogSize(left: seq<F>, right: seq<F>)
    requires |left| == |right|
    ensures |ClaimLog(left, right)| == 2 * |left|
  {
    ClaimLogEntries(left, right);
  }

  lemma LayerExtends(st: LayerState, i: nat, layer: LayerProof, values: seq<F>, dots: DotClaims, np: nat, next: LayerState)
    requires VerifyLayer(st, i, layer, values, dots, np) == Some(next)
    ensures st.log <= next.log && |next.claims| == np && DotsReadable(dots) && next.rand != [] && next.rand[0] == HASH(next.log)
  {
    hide VerifyLayer, Verify;
    var sc := LayerHeard(st, i, layer, values, dots, np, next);
  }

  /** The same for all layers: from the same start, equal transcripts come from equal layers, and the point of the claims
      is the same. */
  lemma {:induction false} LayersPinned(layers: seq<LayerProof>, layers': seq<LayerProof>, dots: DotClaims, dots': DotClaims,
                                        products: seq<F>, products': seq<F>, values: seq<F>, values': seq<F>, n: nat, log: Log,
                                        st: LayerState, st': LayerState, whole: Log)
    requires VerifyLayers(layers, dots, products, values, n, log) == Some(st)
    requires VerifyLayers(layers', dots', products', values', n, log) == Some(st')
    requires |layers| == |layers'| && |products| == |products'| && |values| == |values'|
    requires st.log <= whole && st'.log <= whole
    ensures layers == layers' && log <= st.log == st'.log && st.rand == st'.rand && |st.claims| == |st'.claims| == |products|
    ensures layers != [] && |layers| == n ==> DotsReadable(dots) && DotsReadable(dots') && Read(dots) == Read(dots')
  {
    hide VerifyLayer, Read, DotsReadable;
    if layers != [] {
      var i := |layers| - 1;
      var before := VerifyLayers(layers[..i], dots, products, values, n, log).value;
      var before' := VerifyLayers(layers'[..i], dots', products', values', n, log).value;
      var vs, ds := if i + 1 == n then values else [], if i + 1 == n then dots else NO_DOTS;
      var vs', ds' := if i + 1 == n then values' else [], if i + 1 == n then dots' else NO_DOTS;
      LayerExtends(before, i, layers[i], vs, ds, |products|, st);
      LayerExtends(before', i, layers'[i], vs', ds', |products|, st');
      LayersPinned(layers[..i], layers'[..i], dots, dots', products, products', values, values', n, log, before, before', whole);
      LayerPinned(before, before', i, layers[i], layers'[i], vs, vs', ds, ds', |products|, st, st', whole);
      assert layers == layers[..i] + [layers[i]] && layers' == layers'[..i] + [layers'[i]];
    }
  }

  /** The batched product argument: equal transcripts come from equal proofs, as far as the verifier reads them. */
  lemma BatchPinned(proof: BatchProof, proof': BatchProof, products: seq<F>, products': seq<F>, values: seq<F>, values': seq<F>, n: nat,
                    log: Log, v: Verified, v': Verified, whole: Log)
    requires VerifyBatch(proof, products, values, n, log) == Some(v) && VerifyBatch(proof', products', values', n, log) == Some(v')
    requires |products| == |products'| && |values| == |values'| && v.log <= whole && v'.log <= whole
    ensures proof.layers == proof'.layers && log <= v.log == v'.log && v.rand == v'.rand
    ensures n >= 1 ==> DotsReadable(proof.dots) && DotsReadable(proof'.dots) && Read(proof.dots) == Read(proof'.dots)
  {
    hide VerifyLayers, CombineDots, Read, DotsReadable;
    var st := VerifyLayers(proof.layers, proof.dots, products, values, n, log).value;
    var st' := VerifyLayers(proof'.layers, proof'.dots, products', values', n, log).value;
    LayersPinned(proof.layers, proof'.layers, proof.dots, proof'.dots, products, products', values, values', n, log, st, st', whole);
  }

  // ---- The product layer of an evaluation proof ----

  lemma {:induction false} HalvesLogEntries(left: seq<F>, right: seq<F>, k: nat)
    requires k <= |left| && k <= |right|
    ensures |HalvesLog(left, right, k)| == 2 * k
    ensures forall j :: 0 <= j < k ==> && HalvesLog(left, right, k)[2 * j] == Scalar(DotHalfLeft, left[j])
                                       && HalvesLog(left, right, k)[2 * j + 1] == Scalar(DotHalfRight, right[j])
  {
    if k > 0 {
      HalvesLogEntries(left, right, k - 1);
    }
  }

  lemma SameHalves(left: seq<F>, right: seq<F>, left': seq<F>, right': seq<F>, k: nat)
    requires k <= |left| && k <= |right| && k <= |left'| && k <= |right'| && HalvesLog(left, right, k) == HalvesLog(left', right', k)
    ensures left[..k] == left'[..k] && right[..k] == right'[..k]
  {
    HalvesLogEntries(left, right, k);
    HalvesLogEntries(left', right', k);
    hide HalvesLog;
    forall j | 0 <= j < k
      ensures left[j] == left'[j] && right[j] == right'[j]
    {
      assert Scalar(DotHalfLeft, left[j]) == Scalar(DotHalfLeft, left'[j]) && Scalar(DotHalfRight, right[j]) == Scalar(DotHalfRight, right'[j]);
    }
  }

  lemma SameClaimsOf(side: Side, c: Claims, c': Claims)
    requires ClaimsLog(side, c) == ClaimsLog(side, c')
    ensures c == c'
  {
    var a, b := ClaimsLog(side, c), ClaimsLog(side, c');
    assert a[0] == b[0] && a[1] == b[1] && a[2] == b[2] && a[3] == b[3];
  }

  lemma ProductLayerLogSize(p: ProductLayerProof, n: nat)
    requires n <= |p.left| && n <= |p.right|
    ensures |ProductLayerLog(p, n)| == 9 + 2 * n
  {
    HalvesLogEntries(p.left, p.right, n);
  }

  /** What is appended before the product arguments are the claimed products of both memories and all the halves. */
  lemma SameProductLayer(p: ProductLayerProof, p': ProductLayerProof, n: nat)
    requires n <= |p.left| && n <= |p.right| && n <= |p'.left| && n <= |p'.right|
    requires ProductLayerLog(p, n) == ProductLayerLog(p', n)
    ensures p.row == p'.row && p.col == p'.col && p.left[..n] == p'.left[..n] && p.right[..n] == p'.right[..n]
  {
    hide ClaimsLog, HalvesLog;
    var a, b := ProductLayerLog(p, n), ProductLayerLog(p', n);
    ClaimsLogSize(RowSide, p.row);
    ClaimsLogSize(RowSide, p'.row);
    ClaimsLogSize(ColSide, p.col);
    ClaimsLogSize(ColSide, p'.col);
    assert a[1..5] == ClaimsLog(RowSide, p.row) && b[1..5] == ClaimsLog(RowSide, p'.row);
    assert a[5..9] == ClaimsLog(ColSide, p.col) && b[5..9] == ClaimsLog(ColSide, p'.col);
    assert a[9..] == HalvesLog(p.left, p.right, n) && b[9..] == HalvesLog(p'.left, p'.right, n);
    SameClaimsOf(RowSide, p.row, p'.row);
    SameClaimsOf(ColSide, p.col, p'.col);
    SameHalves(p.left, p.right, p'.left, p'.right, n);
  }

  lemma ClaimsLogSize(side: Side, c: Claims)
    ensures |ClaimsLog(side, c)| == 4
  {
  }

  /** The same messages of two product layers, as far as the verifier reads them. */
  ghost predicate SameProducts(p: ProductLayerProof, p': ProductLayerProof, n: nat, k: nat, l: nat) {
    && p.row == p'.row && p.col == p'.col && n <= |p.left| && n <= |p.right| && n <= |p'.left| && n <= |p'.right|
    && p.left[..n] == p'.left[..n] && p.right[..n] == p'.right[..n]
    && p.ops.layers == p'.ops.layers && p.mem.layers == p'.mem.layers
    && (k >= 1 ==> DotsReadable(p.ops.dots) && DotsReadable(p'.ops.dots) && Read(p.ops.dots) == Read(p'.ops.dots))
    && (l >= 1 ==> DotsReadable(p.mem.dots) && DotsReadable(p'.mem.dots) && Read(p.mem.dots) == Read(p'.mem.dots))
  }

  /** Equal transcripts after the product layer come from equal claims, halves and product arguments; all claims are
      appended before the first challenge of the arguments. */
  lemma ProductLayerPinned(p: ProductLayerProof, p': ProductLayerProof, numOps: nat, numCells: nat, evals: seq<F>, evals': seq<F>, log: Log,
                           v: ProductLayerResult, v': ProductLayerResult, whole: Log)
    requires VerifyProductLayer(p, numOps, numCells, evals, log) == Some(v)
    requires VerifyProductLayer(p', numOps, numCells, evals', log) == Some(v')
    requires |evals| == |evals'| && v.log <= whole && v'.log <= whole
    ensures SameProducts(p, p', |evals|, Log2(numOps), Log2(numCells))
    ensures log + ProductLayerLog(p, |evals|) <= v.log == v'.log && v.randOps == v'.randOps && v.randMem == v'.randMem
  {
    hide SetsMatch, VerifyBatch, ProductLayerLog, ProductClaims, MemoryClaims, Interleave, Log2, DotsReadable, Read;
    var n := |evals|;
    var start, start' := log + ProductLayerLog(p, n), log + ProductLayerLog(p', n);
    var products, products' := ProductClaims(p.row, p.col), ProductClaims(p'.row, p'.col);
    var values, values' := Interleave(p.left, p.right, n), Interleave(p'.left, p'.right, n);
    var ops := VerifyBatch(p.ops, products, values, Log2(numOps), start).value;
    var ops' := VerifyBatch(p'.ops, products', values', Log2(numOps), start').value;
    var mem := VerifyBatch(p.mem, MemoryClaims(p.row, p.col), [], Log2(numCells), ops.log).value;
    var mem' := VerifyBatch(p'.mem, MemoryClaims(p'.row, p'.col), [], Log2(numCells), ops'.log).value;
    BatchExtends(p.ops, products, values, Log2(numOps), start, ops);
    BatchExtends(p'.ops, products', values', Log2(numOps), start', ops');
    BatchExtends(p.mem, MemoryClaims(p.row, p.col), [], Log2(numCells), ops.log, mem);
    BatchExtends(p'.mem, MemoryClaims(p'.row, p'.col), [], Log2(numCells), ops'.log, mem');
    ProductLayerLogSize(p, n);
    ProductLayerLogSize(p', n);
    SameBeginning(start, start', whole);
    assert ProductLayerLog(p, n) == start[|log|..] && ProductLayerLog(p', n) == start'[|log|..];
    SameProductLayer(p, p', n);
    BatchPinned(p.ops, p'.ops, products, products', values, values', Log2(numOps), start, ops, ops', whole);
    MemoryClaimsCount(p, p');
    BatchPinned(p.mem, p'.mem, MemoryClaims(p.row, p.col), MemoryClaims(p'.row, p'.col), [], [], Log2(numCells), ops.log, mem, mem', whole);
  }

  lemma MemoryClaimsCount(p: ProductLayerProof, p': ProductLayerProof)
    ensures |MemoryClaims(p.row, p.col)| == |MemoryClaims(p'.row, p'.col)|
  {
  }

  lemma BatchExtends(proof: BatchProof, products: seq<F>, values: seq<F>, n: nat, log: Log, v: Verified)
    requires VerifyBatch(proof, products, values, n, log) == Some(v)
    ensures log <= v.log
  {
    BatchPinned(proof, proof, products, products, values, values, n, log, v, v, v.log);
  }

  // ---- Combined openings ----

  /** The combining challenges are answers to a transcript that already holds all the values to be combined, and the
      combined value is appended before the opening is checked. */
  lemma JointHeard(joint: Joint, c: Digest, opening: Opening, evals: seq<F>, r: seq<F>, log: Log, log': Log) returns (cs: seq<F>)
    requires VerifyJoint(joint, c, opening, evals, r, log) == Some(log')
    ensures cs == Challenges(log + [Scalars(JointEvals(joint), evals)], Combining(joint), Log2(|evals|)) && |evals| == Pow2(|cs|)
    ensures var asked := log + [Scalars(JointEvals(joint), evals)] + Squeezes(Combining(joint), |cs|);
            && PCS.verify(c, opening, cs + r, Mle(evals, cs), asked + [Scalar(JointClaim(joint), Mle(evals, cs))]) == Some(log')
            && asked + [Scalar(JointClaim(joint), Mle(evals, cs))] <= log'
    ensures log <= log' && |log| < |log'| && log'[|log|] == Scalars(JointEvals(joint), evals)
  {
    hide Mle, Challenges, Log2;
    var k := Log2(|evals|);
    cs := Challenges(log + [Scalars(JointEvals(joint), evals)], Combining(joint), k);
    var asked := log + [Scalars(JointEvals(joint), evals)] + Squeezes(Combining(joint), k);
    OpeningAppends(c, opening, cs + r, Mle(evals, cs), asked + [Scalar(JointClaim(joint), Mle(evals, cs))]);
  }

  /** So from the same start, equal transcripts come from equal values. */
  lemma JointPinned(joint: Joint, c: Digest, opening: Opening, opening': Opening, evals: seq<F>, evals': seq<F>, r: seq<F>, log: Log,
                    log1: Log, log2: Log, whole: Log)
    requires VerifyJoint(joint, c, opening, evals, r, log) == Some(log1) && VerifyJoint(joint, c, opening', evals', r, log) == Some(log2)
    requires log1 <= whole && log2 <= whole
    ensures evals == evals' && log <= log1 && log <= log2
  {
    hide VerifyJoint, Challenges, Squeezes, Mle, Pow2, Log2;
    var cs := JointHeard(joint, c, opening, evals, r, log, log1);
    var cs' := JointHeard(joint, c, opening', evals', r, log, log2);
    assert whole[|log|] == Scalars(JointEvals(joint), evals) == Scalars(JointEvals(joint), evals');
  }

  lemma OpeningsExtend(p: HashLayerProof, c: Committed, derefs: Digest, randMem: seq<F>, randOps: seq<F>, log: Log, log': Log)
    requires VerifyOpenings(p, c, derefs, randMem, randOps, log) == Some(log')
    ensures log <= log'
  {
    hide VerifyJoint, PadPow2, OperationEvals;
    var start := log + [Protocol(HashLayerName), Protocol(DerefsName)];
    var a := VerifyJoint(DerefsPoly, derefs, p.openDerefs, PadPow2(p.rowDerefs + p.colDerefs), randOps, start).value;
    var b := VerifyJoint(OpsPoly, c.ops, p.openOps, PadPow2(OperationEvals(p)), randOps, a).value;
    JointPinned(DerefsPoly, derefs, p.openDerefs, p.openDerefs, PadPow2(p.rowDerefs + p.colDerefs), PadPow2(p.rowDerefs + p.colDerefs), randOps, start, a, a, a);
    JointPinned(OpsPoly, c.ops, p.openOps, p.openOps, PadPow2(OperationEvals(p)), PadPow2(OperationEvals(p)), randOps, a, b, b, b);
    JointPinned(MemPoly, c.mem, p.openMem, p.openMem, [p.row.audit, p.col.audit], [p.row.audit, p.col.audit], randMem, b, log', log', log');
  }

  /** The opened values of the hash layer. The list of each opening is fixed before its own challenges; what a scheme
      appends while it checks an opening may depend on the opening, so later lists are compared for equal openings. */
  lemma OpeningsPinned(p: HashLayerProof, p': HashLayerProof, c: Committed, derefs: Digest, randMem: seq<F>, randOps: seq<F>, log: Log,
                       log1: Log, log2: Log, whole: Log)
    requires VerifyOpenings(p, c, derefs, randMem, randOps, log) == Some(log1)
    requires VerifyOpenings(p', c, derefs, randMem, randOps, log) == Some(log2)
    requires log1 <= whole && log2 <= whole
    ensures PadPow2(p.rowDerefs + p.colDerefs) == PadPow2(p'.rowDerefs + p'.colDerefs)
    ensures p.openDerefs == p'.openDerefs ==> PadPow2(OperationEvals(p)) == PadPow2(OperationEvals(p'))
    ensures p.openDerefs == p'.openDerefs && p.openOps == p'.openOps ==> p.row.audit == p'.row.audit && p.col.audit == p'.col.audit
  {
    hide VerifyJoint, PadPow2, OperationEvals;
    var start := log + [Protocol(HashLayerName), Protocol(DerefsName)];
    var A, A' := PadPow2(p.rowDerefs + p.colDerefs), PadPow2(p'.rowDerefs + p'.colDerefs);
    var B, B' := PadPow2(OperationEvals(p)), PadPow2(OperationEvals(p'));
    var C, C' := [p.row.audit, p.col.audit], [p'.row.audit, p'.col.audit];
    var a, a' := VerifyJoint(DerefsPoly, derefs, p.openDerefs, A, randOps, start).value, VerifyJoint(DerefsPoly, derefs, p'.openDerefs, A', randOps, start).value;
    var b, b' := VerifyJoint(OpsPoly, c.ops, p.openOps, B, randOps, a).value, VerifyJoint(OpsPoly, c.ops, p'.openOps, B', randOps, a').value;
    JointPinned(OpsPoly, c.ops, p.openOps, p.openOps, B, B, randOps, a, b, b, b);
    JointPinned(OpsPoly, c.ops, p'.openOps, p'.openOps, B', B', randOps, a', b', b', b');
    JointPinned(MemPoly, c.mem, p.openMem, p.openMem, C, C, randMem, b, log1, log1, log1);
    JointPinned(MemPoly, c.mem, p'.openMem, p'.openMem, C', C', randMem, b', log2, log2, log2);
    JointPinned(DerefsPoly, derefs, p.openDerefs, p'.openDerefs, A, A', randOps, start, a, a', whole);
    if p.openDerefs == p'.openDerefs {
      JointPinned(OpsPoly, c.ops, p.openOps, p'.openOps, B, B', randOps, a, b, b', whole);
      if p.openOps == p'.openOps {
        JointPinned(MemPoly, c.mem, p.openMem, p'.openMem, C, C', randMem, b, log1, log2, whole);
        assert C[0] == C'[0] && C[1] == C'[1];
      }
    }
  }

  // ---- Evaluation proofs ----

  predicate NoSqueeze(log: Log) {
    forall i :: 0 <= i < |log| ==> !log[i].Squeeze?
  }

  lemma NetworkExtends(proof: SparseEvalProof, c: Committed, evals: seq<F>, rx: seq<F>, ry: seq<F>, k: Keys, log: Log, log': Log)
    returns (v: ProductLayerResult)
    requires VerifyNetwork(proof, c, evals, rx, ry, k, log) == Some(log')
    ensures VerifyProductLayer(proof.products, NextPow2(c.numOps), Pow2(|rx|), evals, log + [Protocol(SparseEvalName)]) == Some(v)
    ensures VerifyOpenings(proof.hashes, c, proof.derefs, v.randMem, v.randOps, v.log) == Some(log')
    ensures log + [Protocol(SparseEvalName)] <= v.log <= log'
  {
    hide VerifyProductLayer, VerifyOpenings, DotsMatch, HashesMatch, RowClaims, ColClaims, ProductLayerLog, SameProducts, Log2, NextPow2, Pow2;
    var start := log + [Protocol(SparseEvalName)];
    v := VerifyProductLayer(proof.products, NextPow2(c.numOps), Pow2(|rx|), evals, start).value;
    ProductLayerPinned(proof.products, proof.products, NextPow2(c.numOps), Pow2(|rx|), evals, evals, start, v, v, v.log);
    OpeningsExtend(proof.hashes, c, proof.derefs, v.randMem, v.randOps, v.log, log');
  }

  /** The keys of the memory check are answers of the hash to a transcript that holds the commitment to the derefs, with no
      challenge drawn in between; the network proof is accepted with these keys. */
  lemma KeysHeard(proof: SparseEvalProof, c: Committed, rx: seq<F>, ry: seq<F>, evals: seq<F>, log: Log, log': Log)
    returns (h: Log, k: Keys)
    requires VerifySparseEval(proof, c, rx, ry, evals, log) == Some(log')
    ensures var (x, y) := Equalize(rx, ry);
            && Pow2(|x|) == c.numCells
            && VerifyNetwork(proof, c, evals, x, y, k, h + [Squeeze(HashChallenge), Squeeze(HashChallenge)]) == Some(log')
    ensures k == Keys(HASH(h + [Squeeze(HashChallenge)]), HASH(h + [Squeeze(HashChallenge), Squeeze(HashChallenge)]))
    ensures log <= h && h + [Squeeze(HashChallenge), Squeeze(HashChallenge)] <= log' && |h| == |log| + 2
    ensures NoSqueeze(h[|log|..]) && h[|h| - 1] == Commitment(CommitDerefs, proof.derefs)
  {
    hide VerifyNetwork, Equalize, Pow2, KeysOf, Squeezes, SparseEvalLog, NoSqueeze;
    var (x, y) := Equalize(rx, ry);
    h := log + SparseEvalLog(proof);
    k := KeysOf(h);
    TwoSqueezes(h);
    DerefsAppended(proof, log, h);
    var v := NetworkExtends(proof, c, evals, x, y, k, h + Squeezes(HashChallenge, 2), log');
  }

  lemma TwoSqueezes(h: Log)
    ensures Squeezes(HashChallenge, 2) == [Squeeze(HashChallenge), Squeeze(HashChallenge)]
    ensures KeysOf(h) == Keys(HASH(h + [Squeeze(HashChallenge)]), HASH(h + [Squeeze(HashChallenge), Squeeze(HashChallenge)]))
  {
    assert Squeezes(HashChallenge, 1) == [Squeeze(HashChallenge)];
  }

  lemma DerefsAppended(proof: SparseEvalProof, log: Log, h: Log)
    requires h == log + SparseEvalLog(proof)
    ensures |h| == |log| + 2 && log <= h && NoSqueeze(h[|log|..]) && h[|h| - 1] == Commitment(CommitDerefs, proof.derefs)
  {
    assert h[|log|..] == SparseEvalLog(proof);
  }

  /** So two accepted proofs with different commitments to the derefs had different transcripts when the keys were drawn;
      and equal transcripts after the product layer come from equal product layers. */
  lemma SparseEvalPinned(proof: SparseEvalProof, proof': SparseEvalProof, c: Committed, rx: seq<F>, ry: seq<F>, evals: seq<F>, evals': seq<F>,
                         log: Log, end: Log, end': Log)
    requires VerifySparseEval(proof, c, rx, ry, evals, log) == Some(end) && VerifySparseEval(proof', c, rx, ry, evals', log) == Some(end')
    requires |evals| == |evals'|
    ensures |log| + 2 <= |end| && |log| + 2 <= |end'|
    ensures end[..|log| + 2] == end'[..|log| + 2] ==> proof.derefs == proof'.derefs
    ensures end == end' ==> && proof.derefs == proof'.derefs
                            && SameProducts(proof.products, proof'.products, |evals|, Log2(NextPow2(c.numOps)), Log2(Pow2(|Equalize(rx, ry).0|)))
                            && PadPow2(proof.hashes.rowDerefs + proof.hashes.colDerefs) == PadPow2(proof'.hashes.rowDerefs + proof'.hashes.colDerefs)
  {
    hide VerifySparseEval, VerifyNetwork, VerifyProductLayer, VerifyOpenings, Equalize, Pow2, SameProducts, Log2, NextPow2, ProductLayerLog, PadPow2, NoSqueeze;
    var (x, y) := Equalize(rx, ry);
    var h, k := KeysHeard(proof, c, rx, ry, evals, log, end);
    var h', k' := KeysHeard(proof', c, rx, ry, evals', log, end');
    var v := NetworkExtends(proof, c, evals, x, y, k, h + [Squeeze(HashChallenge), Squeeze(HashChallenge)], end);
    var v' := NetworkExtends(proof', c, evals', x, y, k', h' + [Squeeze(HashChallenge), Squeeze(HashChallenge)], end');
    assert end[..|log| + 2] == h && end'[..|log| + 2] == h';
    if end == end' {
      var start := h + [Squeeze(HashChallenge), Squeeze(HashChallenge)] + [Protocol(SparseEvalName)];
      ProductLayerPinned(proof.products, proof'.products, NextPow2(c.numOps), Pow2(|x|), evals, evals', start, v, v', end);
      OpeningsPinned(proof.hashes, proof'.hashes, c, proof.derefs, v.randMem, v.randOps, v.log, end, end', end);
    }
  }

  // ---- Committed relaxed R1CS ----

  /** When tau is drawn the transcript holds the inputs, the scaling factor and both commitments, and no challenge has been
      drawn since the start. The final check of phase one is made with the answers to this transcript. */
  lemma TauHeard(proof: Crr1csVerifier.Proof, numCons: nat, inst: Crr1csVerifier.Instance, log: Log, one: State) returns (h: Log)
    requires PhaseOne(proof, numCons, inst, log) == Some(one)
    ensures log <= h && |h| == |log| + 5 && NoSqueeze(h[|log|..])
    ensures h[|log| + 1] == Scalars(Input, inst.input) && h[|log| + 2] == Scalar(Scaling, inst.u)
    ensures h[|log| + 3] == Commitment(CommitW, inst.commW) && h[|log| + 4] == Commitment(CommitE, inst.commE)
    ensures h + Squeezes(Tau, Log2(numCons)) <= one.log && |one.log| == |log| + 9 + 3 * Log2(numCons)
    ensures var tau := Challenges(h, Tau, Log2(numCons));
            && |one.r| == |tau|
            && var sc := Verify(proof.phase1, 0, |tau|, 3, h + Squeezes(Tau, |tau|));
               && sc.Some? && sc.value.r == one.r
               && sc.value.e == RelaxedValue(inst.u, EqEval(one.r, tau), proof.az, proof.bz, proof.cz, proof.evalError)
               && one.log == sc.value.log + [Scalar(AzClaim, proof.az), Scalar(BzClaim, proof.bz), Scalar(CzClaim, proof.cz),
                                             Scalar(ErrorClaim, proof.evalError)]
  {
    hide Verify, EqEval, RelaxedValue, Log2;
    h := log + Preamble(inst);
    var n := Log2(numCons);
    assert h[|log|..] == Preamble(inst);
    PreambleHolds(inst);
    hide Preamble;
    VerifyExtends(proof.phase1, 0, n, 3, h + Squeezes(Tau, n), Verify(proof.phase1, 0, n, 3, h + Squeezes(Tau, n)).value);
  }

  lemma PreambleHolds(inst: Crr1csVerifier.Instance)
    ensures var p := Preamble(inst);
            && |p| == 5 && NoSqueeze(p) && p[1] == Scalars(Input, inst.input) && p[2] == Scalar(Scaling, inst.u)
            && p[3] == Commitment(CommitW, inst.commW) && p[4] == Commitment(CommitE, inst.commE)
  {
  }

  /** Two instances whose transcripts agree when tau is drawn are equal; and equal transcripts after phase one come from
      equal messages and claims. */
  lemma PhaseOnePinned(proof: Crr1csVerifier.Proof, proof': Crr1csVerifier.Proof, numCons: nat, inst: Crr1csVerifier.Instance,
                       inst': Crr1csVerifier.Instance, log: Log, one: State, one': State)
    requires PhaseOne(proof, numCons, inst, log) == Some(one) && PhaseOne(proof', numCons, inst', log) == Some(one')
    ensures |log| + 5 <= |one.log| == |one'.log|
    ensures one.log[..|log| + 5] == one'.log[..|log| + 5] ==> inst == inst'
    ensures one.log == one'.log ==> && inst == inst' && proof.phase1 == proof'.phase1 && one.r == one'.r
                                    && (proof.az, proof.bz, proof.cz, proof.evalError) == (proof'.az, proof'.bz, proof'.cz, proof'.evalError)
  {
    hide PhaseOne, Verify, EqEval, RelaxedValue, Log2, Challenges, NoSqueeze;
    var h := TauHeard(proof, numCons, inst, log, one);
    var h' := TauHeard(proof', numCons, inst', log, one');
    var n := Log2(numCons);
    assert one.log[..|log| + 5] == h && one'.log[..|log| + 5] == h';
    if h == h' {
      assert h[|log| + 1] == h'[|log| + 1] && h[|log| + 2] == h'[|log| + 2] && h[|log| + 3] == h'[|log| + 3] && h[|log| + 4] == h'[|log| + 4];
    }
    if one.log == one'.log {
      var start := h + Squeezes(Tau, n);
      var sc, sc' := Verify(proof.phase1, 0, n, 3, start).value, Verify(proof'.phase1, 0, n, 3, start).value;
      VerifyPinned(proof.phase1, 0, proof'.phase1, 0, n, 3, start, sc, sc', one.log);
      var m := |sc.log|;
      assert one.log[m] == one'.log[m] && one.log[m + 1] == one'.log[m + 1] && one.log[m + 2] == one'.log[m + 2] && one.log[m + 3] == one'.log[m + 3];
    }
  }

  /** Each of the three mixing challenges is the hash of the transcript up to its own squeeze. */
  lemma MixersHeard(log: Log)
    ensures var m := Mixers(log);
            && m.log == log + [Squeeze(AzChallenge), Squeeze(BzChallenge), Squeeze(CzChallenge)]
            && m.a == HASH(m.log[..|log| + 1]) && m.b == HASH(m.log[..|log| + 2]) && m.c == HASH(m.log)
  {
    var m := Mixers(log);
    assert m.log[..|log| + 1] == log + [Squeeze(AzChallenge)];
    assert m.log[..|log| + 2] == log + [Squeeze(AzChallenge)] + [Squeeze(BzChallenge)];
    assert m.log == log + [Squeeze(AzChallenge)] + [Squeeze(BzChallenge)] + [Squeeze(CzChallenge)];
  }

  /** Phase two: the sum-check, then the openings of the witness and of the error. */
  lemma PhaseTwoHeard(proof: Crr1csVerifier.Proof, numVars: nat, inst: Crr1csVerifier.Instance, evals: (F, F, F), rx: seq<F>, log: Log,
                      ry: seq<F>, end: Log)
    returns (sc: State)
    requires PhaseTwo(proof, numVars, inst, evals, rx, log) == Some((ry, end))
    ensures var m := Mixers(log);
            && Verify(proof.phase2, Mix3(m.a, proof.az, m.b, proof.bz, m.c, proof.cz), Log2(2 * numVars), 2, m.log) == Some(sc)
            && ry == sc.r && ry != [] && |ry| == Log2(numVars) + 1
            && Mul(EvalZ(inst, proof.evalVars, ry), Mix3(m.a, evals.0, m.b, evals.1, m.c, evals.2)) == sc.e
    ensures var checked := PCS.verify(inst.commW, proof.openVars, ry[1..], proof.evalVars, sc.log);
            checked.Some? && PCS.verify(inst.commE, proof.openError, rx, proof.evalError, checked.value) == Some(end)
    ensures |sc.log| == |log| + 3 + 2 * Log2(2 * numVars) && Mixers(log).log <= sc.log <= end
  {
    hide Verify, Mix3, EvalZ, Log2;
    MixersHeard(log);
    hide Mixers;
    var m := Mixers(log);
    var claim := Mix3(m.a, proof.az, m.b, proof.bz, m.c, proof.cz);
    sc := Verify(proof.phase2, claim, Log2(2 * numVars), 2, m.log).value;
    VerifyExtends(proof.phase2, claim, Log2(2 * numVars), 2, m.log, sc);
    OpeningAppends(inst.commW, proof.openVars, sc.r[1..], proof.evalVars, sc.log);
    OpeningAppends(inst.commE, proof.openError, rx, proof.evalError, PCS.verify(inst.commW, proof.openVars, sc.r[1..], proof.evalVars, sc.log).value);
  }

  /** Everything sent in a satisfiability proof but the openings and the opened value of the witness. */
  ghost predicate SameSat(p: Crr1csVerifier.Proof, p': Crr1csVerifier.Proof) {
    p' == p.(evalVars := p'.evalVars, openVars := p'.openVars, openError := p'.openError)
  }

  /** Equal transcripts of two accepted proofs come from the same instance and the same messages. */
  lemma Crr1csPinned(proof: Crr1csVerifier.Proof, proof': Crr1csVerifier.Proof, numVars: nat, numCons: nat, inst: Crr1csVerifier.Instance,
                     inst': Crr1csVerifier.Instance, evals: (F, F, F), evals': (F, F, F), log: Log, a: Accepted, a': Accepted, whole: Log)
    requires VerifyCrr1cs(proof, numVars, numCons, inst, evals, log) == Some(a)
    requires VerifyCrr1cs(proof', numVars, numCons, inst', evals', log) == Some(a')
    requires a.log <= whole && a'.log <= whole
    ensures inst == inst' && SameSat(proof, proof') && a.rx == a'.rx && a.ry == a'.ry && log <= a.log
  {
    hide PhaseOne, PhaseTwo, Verify, Log2, Mixers, Mix3, EvalZ, Challenges, RelaxedValue, EqEval, SameSat, NoSqueeze, Squeezes;
    var one, one' := PhaseOne(proof, numCons, inst, log).value, PhaseOne(proof', numCons, inst', log).value;
    var sc := PhaseTwoHeard(proof, numVars, inst, evals, one.r, one.log, a.ry, a.log);
    var sc' := PhaseTwoHeard(proof', numVars, inst', evals', one'.r, one'.log, a'.ry, a'.log);
    var h := TauHeard(proof, numCons, inst, log, one);
    PhaseOnePinned(proof, proof', numCons, inst, inst', log, one, one');
    MixersHeard(one.log);
    MixersHeard(one'.log);
    var m, m' := Mixers(one.log), Mixers(one'.log);
    SameBeginning(one.log, one'.log, whole);
    VerifyPinned(proof.phase2, Mix3(m.a, proof.az, m.b, proof.bz, m.c, proof.cz), proof'.phase2, Mix3(m.a, proof'.az, m.b, proof'.bz, m.c, proof'.cz),
                 Log2(2 * numVars), 2, m.log, sc, sc', whole);
    SameFields(proof, proof');
  }

  lemma SameFields(p: Crr1csVerifier.Proof, p': Crr1csVerifier.Proof)
    requires p.phase1 == p'.phase1 && p.phase2 == p'.phase2
    requires (p.az, p.bz, p.cz, p.evalError) == (p'.az, p'.bz, p'.cz, p'.evalError)
    ensures SameSat(p, p')
  {
  }

  // ---- The SNARK ----

  lemma SameEncoding(c: Encoding, c': Encoding)
    requires EncodingLog(c) == EncodingLog(c')
    ensures c == c'
  {
    var a, b := EncodingLog(c), EncodingLog(c');
    assert a[1] == b[1] && a[2] == b[2] && a[3] == b[3] && a[5] == b[5] && a[6] == b[6] && a[7] == b[7] && a[8] == b[8];
  }

  lemma EncodingLogSize(c: Encoding)
    ensures |EncodingLog(c)| == 9 && NoSqueeze(EncodingLog(c))
  {
  }

  lemma SameMatrixClaims(evals: (F, F, F), evals': (F, F, F))
    requires MatrixClaims(evals) == MatrixClaims(evals')
    ensures evals == evals'
  {
    var a, b := MatrixClaims(evals), MatrixClaims(evals');
    assert a[0] == b[0] && a[1] == b[1] && a[2] == b[2];
  }

  /** An accepted proof of the SNARK: the encoding is appended first, and the evaluation proof starts from the transcript of
      the satisfiability proof with the claimed matrix values appended. */
  lemma SnarkHeard(proof: SnarkProof, c: Encoding, inst: Crr1csVerifier.Instance, log: Log, end: Log) returns (a: Accepted)
    requires VerifySnark(proof, c, inst, log) == Some(end)
    ensures |inst.input| == c.numInputs
    ensures VerifyCrr1cs(proof.sat, c.numVars, c.numCons, inst, proof.evals, log + EncodingLog(c)) == Some(a)
    ensures VerifySparseEval(proof.eval, c.matrices, a.rx, a.ry, [proof.evals.0, proof.evals.1, proof.evals.2], a.log + MatrixClaims(proof.evals))
         == Some(end)
    ensures log + EncodingLog(c) <= a.log && a.log + MatrixClaims(proof.evals) <= end && |a.log| + 5 <= |end|
  {
    hide EncodingLog, MatrixClaims, VerifyCrr1cs, VerifySparseEval, SameSat, NextPow2, Pow2, Log2, Equalize, NoSqueeze, VerifyNetwork;
    MatrixClaimsSize(proof.evals);
    var start := log + EncodingLog(c);
    a := VerifyCrr1cs(proof.sat, c.numVars, c.numCons, inst, proof.evals, start).value;
    Crr1csPinned(proof.sat, proof.sat, c.numVars, c.numCons, inst, inst, proof.evals, proof.evals, start, a, a, a.log);
    var h, k := KeysHeard(proof.eval, c.matrices, a.rx, a.ry, [proof.evals.0, proof.evals.1, proof.evals.2], a.log + MatrixClaims(proof.evals), end);
  }

  /** When the keys of the memory check are drawn, everything before them is fixed: the encoding, the instance, all messages
      of the satisfiability proof, the claimed matrix values and the commitment to the derefs. */
  lemma SnarkPinned(proof: SnarkProof, proof': SnarkProof, c: Encoding, c': Encoding, inst: Crr1csVerifier.Instance,
                    inst': Crr1csVerifier.Instance, log: Log, end: Log, end': Log, a: Accepted, a': Accepted)
    requires VerifySnark(proof, c, inst, log) == Some(end) && VerifySnark(proof', c', inst', log) == Some(end')
    requires VerifyCrr1cs(proof.sat, c.numVars, c.numCons, inst, proof.evals, log + EncodingLog(c)) == Some(a)
    requires VerifyCrr1cs(proof'.sat, c'.numVars, c'.numCons, inst', proof'.evals, log + EncodingLog(c')) == Some(a')
    requires |a.log| + 5 <= |end| && |a'.log| + 5 <= |end'| && end[..|a.log| + 5] == end'[..|a'.log| + 5]
    ensures c == c' && inst == inst' && SameSat(proof.sat, proof'.sat) && proof.evals == proof'.evals && proof.eval.derefs == proof'.eval.derefs
    ensures a.rx == a'.rx && a.ry == a'.ry
  {
    hide EncodingLog, MatrixClaims, VerifyCrr1cs, VerifySparseEval, VerifySnark, SameSat, NextPow2, Pow2, Log2, Equalize, PadPow2, NoSqueeze, VerifyNetwork;
    var b := SnarkHeard(proof, c, inst, log, end);
    var b' := SnarkHeard(proof', c', inst', log, end');
    var whole := end[..|a.log| + 5];
    assert |whole| == |a.log| + 5 && |whole| == |a'.log| + 5;
    EncodingLogSize(c);
    EncodingLogSize(c');
    SameBeginning(log + EncodingLog(c), log + EncodingLog(c'), whole);
    assert EncodingLog(c) == (log + EncodingLog(c))[|log|..] && EncodingLog(c') == (log + EncodingLog(c'))[|log|..];
    SameEncoding(c, c');
    Crr1csPinned(proof.sat, proof'.sat, c.numVars, c.numCons, inst, inst', proof.evals, proof'.evals, log + EncodingLog(c), a, a', whole);
    SameBeginning(a.log, a'.log, whole);
    MatrixClaimsSize(proof.evals);
    MatrixClaimsSize(proof'.evals);
    SameBeginning(a.log + MatrixClaims(proof.evals), a'.log + MatrixClaims(proof'.evals), whole);
    assert MatrixClaims(proof.evals) == (a.log + MatrixClaims(proof.evals))[|a.log|..];
    assert MatrixClaims(proof'.evals) == (a.log + MatrixClaims(proof'.evals))[|a.log|..];
    SameMatrixClaims(proof.evals, proof'.evals);
    var start, evals := a.log + MatrixClaims(proof.evals), [proof.evals.0, proof.evals.1, proof.evals.2];
    var h, k := KeysHeard(proof.eval, c.matrices, a.rx, a.ry, evals, start, end);
    var h', k' := KeysHeard(proof'.eval, c.matrices, a.rx, a.ry, evals, start, end');
    SameBeginning(h, h', whole);
  }

  lemma MatrixClaimsSize(evals: (F, F, F))
    ensures |MatrixClaims(evals)| == 3
  {
  }

  // ---- Folding ----

  /** The folding challenge depends on both lists of values. */
  lemma ThetasPinned(thetas1: seq<F>, thetas2: seq<F>, thetas1': seq<F>, thetas2': seq<F>, log: Log)
    requires log + CcsFolding.FoldLog(thetas1, thetas2) == log + CcsFolding.FoldLog(thetas1', thetas2')
    ensures thetas1 == thetas1' && thetas2 == thetas2'
  {
    var a, b := log + CcsFolding.FoldLog(thetas1, thetas2), log + CcsFolding.FoldLog(thetas1', thetas2');
    assert a[|log|] == b[|log|] && a[|log| + 1] == b[|log| + 1];
  }
}
