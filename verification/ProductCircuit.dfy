/** Product trees (spartan/src/product_tree.rs): each layer multiplies the two halves of the layer
    below entry by entry, down to the product of all inputs. */
module ProductCircuit {
  import opened Wrappers
  import opened Field
  import opened Vectors
  import opened Powers
  import opened Multilinear
  import opened Sumcheck
  import opened Combiners

  /** The k-th layer above the input table V. */
  function Layer(V: Table, n: nat, k: nat): (T: Table)
    requires |V| == Pow2(n) && k <= n
    ensures |T| == Pow2(n - k)
  {
    if k == 0 then V
    else
      var W := Layer(V, n, k - 1);
      HalvesOf(W, Pow2(n - k));
      Hadamard(Lo(W), Hi(W))
  }

  lemma HalvesOf(W: Table, h: nat)
    requires |W| == 2 * h
    ensures |Lo(W)| == |Hi(W)| == h
  {
  }

  lemma NextLayer(V: Table, n: nat, k: nat)
    requires |V| == Pow2(n) && k < n
    ensures |Lo(Layer(V, n, k))| == |Hi(Layer(V, n, k))| == Pow2(n - k - 1)
    ensures Layer(V, n, k + 1) == Hadamard(Lo(Layer(V, n, k)), Hi(Layer(V, n, k)))
  {
    assert |Layer(V, n, k)| == 2 * Pow2(n - k - 1);
    HalvesOf(Layer(V, n, k), Pow2(n - k - 1));
    hide Lo, Hi, Hadamard, Pow2;
  }

  lemma HalvesKeepProduct(W: Table)
    requires |W| % 2 == 0
    ensures Prod(Hadamard(Lo(W), Hi(W))) == Prod(W)
  {
    assert W == Lo(W) + Hi(W);
    ProdAppend(Lo(W), Hi(W));
    ProdHadamard(Lo(W), Hi(W));
  }

  /** Every layer keeps the product of all entries, so the last one holds the product of the input. */
  lemma {:induction false} LayerKeepsProduct(V: Table, n: nat, k: nat)
    requires |V| == Pow2(n) && k <= n
    ensures Prod(Layer(V, n, k)) == Prod(V)
  {
    hide Prod;
    if k > 0 {
      var W := Layer(V, n, k - 1);
      NextLayer(V, n, k - 1);
      HalvesKeepProduct(W);
      LayerKeepsProduct(V, n, k - 1);
    }
  }

  lemma LastLayer(V: Table, n: nat)
    requires |V| == Pow2(n)
    ensures Layer(V, n, n) == [Prod(V)]
  {
    var T := Layer(V, n, n);
    LayerKeepsProduct(V, n, n);
    assert T == [T[0]] && T[..0] == [];
    MulOne(T[0]);
  }

  datatype ProductCircuit = ProductCircuit(left: seq<Table>, right: seq<Table>)

  /** The lists hold both halves of the first m layers of V. */
  ghost predicate HoldsLayers(left: seq<Table>, right: seq<Table>, V: Table, n: nat, m: nat) {
    && |V| == Pow2(n)
    && |left| == |right| == m <= n
    && forall k :: 0 <= k < m ==> left[k] == Lo(Layer(V, n, k)) && right[k] == Hi(Layer(V, n, k))
  }

  ghost predicate CircuitOf(c: ProductCircuit, V: Table, n: nat) {
    HoldsLayers(c.left, c.right, V, n, n)
  }

  /** `ProductCircuit::compute_layer`. */
  function ComputeLayer(left: Table, right: Table): (Table, Table)
    requires |left| == |right|
  {
    var len := |left| + |right|;
    (seq<F>(len / 4, i requires 0 <= i < len / 4 => Mul(left[i], right[i])),
     seq<F>(len / 2 - len / 4, i requires 0 <= i < len / 2 - len / 4 => Mul(left[len / 4 + i], right[len / 4 + i])))
  }

  lemma ComputeLayerIsHalves(left: Table, right: Table)
    requires |left| == |right|
    ensures ComputeLayer(left, right) == (Lo(Hadamard(left, right)), Hi(Hadamard(left, right)))
  {
    assert ComputeLayer(left, right).0 == Lo(Hadamard(left, right));
    assert ComputeLayer(left, right).1 == Hi(Hadamard(left, right));
  }

  lemma ComputeNextLayer(V: Table, n: nat, k: nat)
    requires |V| == Pow2(n) && k < n
    ensures |Lo(Layer(V, n, k))| == |Hi(Layer(V, n, k))|
    ensures ComputeLayer(Lo(Layer(V, n, k)), Hi(Layer(V, n, k)))
         == (Lo(Layer(V, n, k + 1)), Hi(Layer(V, n, k + 1)))
  {
    hide Layer, Hadamard, ComputeLayer;
    NextLayer(V, n, k);
    ComputeLayerIsHalves(Lo(Layer(V, n, k)), Hi(Layer(V, n, k)));
  }

  lemma FirstLayer(V: Table, n: nat, half: nat)
    requires |V| == Pow2(n) && n >= 1 && half == |V| / 2
    ensures 2 * half == |V|
    ensures HoldsLayers([V[..half]], [V[half..2 * half]], V, n, 1)
  {
    hide Layer, Pow2;
    HalfPower(n);
    InputLayer(V, n);
    assert half == Pow2(n - 1) && V[half..2 * half] == V[half..];
  }

  lemma InputLayer(V: Table, n: nat)
    requires |V| == Pow2(n)
    ensures Layer(V, n, 0) == V
  {
  }

  lemma PushLayer(left: seq<Table>, right: seq<Table>, V: Table, n: nat, m: nat)
    requires 1 <= m < n && HoldsLayers(left, right, V, n, m)
    ensures |left| == |right| == m && |left[m - 1]| == |right[m - 1]|
    ensures var (l, r) := ComputeLayer(left[m - 1], right[m - 1]);
            HoldsLayers(left + [l], right + [r], V, n, m + 1)
  {
    hide *;
    LastHeld(left, right, V, n, m);
    ComputeNextLayer(V, n, m - 1);
    var (l, r) := ComputeLayer(left[m - 1], right[m - 1]);
    HoldsOneMore(left, right, l, r, V, n, m);
  }

  lemma LastHeld(left: seq<Table>, right: seq<Table>, V: Table, n: nat, m: nat)
    requires 1 <= m && HoldsLayers(left, right, V, n, m)
    ensures |V| == Pow2(n) && |left| == |right| == m
    ensures left[m - 1] == Lo(Layer(V, n, m - 1)) && right[m - 1] == Hi(Layer(V, n, m - 1))
  {
    hide Layer, Lo, Hi, Pow2;
  }

  lemma HoldsOneMore(left: seq<Table>, right: seq<Table>, l: Table, r: Table, V: Table, n: nat, m: nat)
    requires m < n && HoldsLayers(left, right, V, n, m) && l == Lo(Layer(V, n, m)) && r == Hi(Layer(V, n, m))
    ensures HoldsLayers(left + [l], right + [r], V, n, m + 1)
  {
    hide Layer, Lo, Hi;
  }

  /** `DensePolynomial::split`. Building a polynomial takes the logarithm of its length, which must not be 0. */
  function Split(Z: Table, idx: nat): Option<(Table, Table)> {
    if idx >= |Z| || 2 * idx > |Z| || Z[..idx] == [] || Z[idx..2 * idx] == [] then None
    else Some((Z[..idx], Z[idx..2 * idx]))
  }

  /** `ProductCircuit::new`. It fails exactly on an input of one entry, which cannot be split. */
  method NewCircuit(V: Table, n: nat) returns (c: Option<ProductCircuit>)
    requires |V| == Pow2(n)
    ensures c.None? <==> |V| < 2
    ensures c.Some? ==> CircuitOf(c.value, V, n)
  {
    var half := |V| / 2;
    var halves := Split(V, half);
    if halves == None {
      return None;
    }
    FirstLayer(V, n, half);
    hide HoldsLayers;
    var left, right := [halves.value.0], [halves.value.1];
    for i := 0 to n - 1
      invariant HoldsLayers(left, right, V, n, i + 1)
    {
      PushLayer(left, right, V, n, i + 1);
      var (l, r) := ComputeLayer(left[i], right[i]);
      left, right := left + [l], right + [r];
    }
    c := Some(ProductCircuit(left, right));
  }

  /** `ProductCircuit::evaluate` is the product of all the inputs. */
  method EvaluateCircuit(c: ProductCircuit, ghost V: Table, n: nat) returns (v: F)
    requires CircuitOf(c, V, n) && n >= 1
    ensures v == Prod(V)
  {
    assert |Layer(V, n, n - 1)| == 2;
    v := Mul(c.left[n - 1][0], c.right[n - 1][0]);
    LastLayer(V, n);
    assert Layer(V, n, n)[0] == v;
  }

  // ---- The sum behind one layer ----

  lemma HypercubeDotPoint(A: Table, B: Table, C: Table)
    requires |A| == |B| == |C| == 1
    ensures HypercubeSum(Product3, [A, B, C], 0) == Dot(Hadamard(A, B), C)
  {
    assert Column([A, B, C], 0) == [A[0], B[0], C[0]];
    var h := Hadamard(A, B);
    assert h[..0] == [] && C[..0] == [];
    AddZero(Mul(h[0], C[0]));
  }

  lemma DotHalves(A: Table, B: Table, C: Table)
    requires |A| == |B| == |C| && |A| % 2 == 0
    ensures Dot(Hadamard(A, B), C) == Add(Dot(Hadamard(Lo(A), Lo(B)), Lo(C)), Dot(Hadamard(Hi(A), Hi(B)), Hi(C)))
  {
    assert Hadamard(A, B) == Hadamard(Lo(A), Lo(B)) + Hadamard(Hi(A), Hi(B));
    assert C == Lo(C) + Hi(C);
    DotAppend(Hadamard(Lo(A), Lo(B)), Hadamard(Hi(A), Hi(B)), Lo(C), Hi(C));
  }

  /** The sum of the products of three tables, as an inner product. */
  lemma {:induction false} HypercubeDot(A: Table, B: Table, C: Table, n: nat)
    requires |A| == |B| == |C| == Pow2(n)
    ensures Uniform([A, B, C], n)
    ensures HypercubeSum(Product3, [A, B, C], n) == Dot(Hadamard(A, B), C)
    decreases n
  {
    hide Dot, Hadamard, Product3;
    if n == 0 {
      HypercubeDotPoint(A, B, C);
    } else {
      assert Los([A, B, C]) == [Lo(A), Lo(B), Lo(C)];
      assert His([A, B, C]) == [Hi(A), Hi(B), Hi(C)];
      HypercubeDot(Lo(A), Lo(B), Lo(C), n - 1);
      HypercubeDot(Hi(A), Hi(B), Hi(C), n - 1);
      DotHalves(A, B, C);
    }
  }

  /** The extension of a layer at a point is a sum over the layer below, weighted by eq. */
  lemma LayerClaim(V: Table, n: nat, k: nat, r: seq<F>)
    requires |V| == Pow2(n) && k < n && |r| == n - k - 1
    ensures |Lo(Layer(V, n, k))| == |Hi(Layer(V, n, k))| == Pow2(|r|)
    ensures Uniform([Lo(Layer(V, n, k)), Hi(Layer(V, n, k)), EqTable(r)], |r|)
    ensures Mle(Layer(V, n, k + 1), r)
         == HypercubeSum(Product3, [Lo(Layer(V, n, k)), Hi(Layer(V, n, k)), EqTable(r)], |r|)
  {
    hide Layer, Hadamard, Mle, Dot, EqTable, HypercubeSum, Lo, Hi;
    var W := Layer(V, n, k);
    NextLayer(V, n, k);
    HypercubeDot(Lo(W), Hi(W), EqTable(r), |r|);
    MleIsDot(Layer(V, n, k + 1), r);
  }
}
