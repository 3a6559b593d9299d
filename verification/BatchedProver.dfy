/** `prove_cubic_batched` (spartan/src/sumcheck.rs): one sum-check for many products of three tables.

    The polynomials come in one list, A_par ++ B_par ++ [C_par] ++ A_seq ++ B_seq ++ C_seq: the first
    np instances share their third table, the other ns have three of their own. */
module BatchedProver {
  import opened Wrappers
  import opened Field
  import opened Vectors
  import opened Powers
  import opened Multilinear
  import opened UniPoly
  import opened Transcript
  import opened DensePolynomial
  import opened Sumcheck
  import opened SumcheckVerifier
  import opened SumcheckProver
  import opened Combiners

  /** The j-th product of a list laid out in that order. */
  function Triple<T>(s: seq<T>, np: nat, ns: nat, j: nat): seq<T>
    requires |s| == 2 * np + 1 + 3 * ns && j < np + ns
  {
    if j < np then [s[j], s[np + j], s[2 * np]]
    else
      var i := 2 * np + 1 + (j - np);
      [s[i], s[i + ns], s[i + 2 * ns]]
  }

  function Triples<T>(s: seq<T>, np: nat, ns: nat): (ts: seq<seq<T>>)
    requires |s| == 2 * np + 1 + 3 * ns
    ensures |ts| == np + ns
    ensures forall j :: 0 <= j < np + ns ==> ts[j] == Triple(s, np, ns, j) && |ts[j]| == 3
  {
    seq(np + ns, j requires 0 <= j < np + ns => Triple(s, np, ns, j))
  }

  lemma TriplesUniform(Ts: Instance, np: nat, ns: nat, n: nat)
    requires |Ts| == 2 * np + 1 + 3 * ns && Uniform(Ts, n)
    ensures UniformBatch(Triples(Ts, np, ns), n)
  {
  }

  lemma TriplesBind(Ts: Instance, np: nat, ns: nat, n: nat, t: F)
    requires |Ts| == 2 * np + 1 + 3 * ns && Uniform(Ts, n + 1)
    requires UniformBatch(Triples(Ts, np, ns), n + 1)
    ensures BindsEach(Triples(Ts, np, ns), n, t) == Triples(Binds(Ts, n, t), np, ns)
  {
    var Us := Binds(Ts, n, t);
    forall j | 0 <= j < np + ns
      ensures Binds(Triple(Ts, np, ns, j), n, t) == Triple(Us, np, ns, j)
    {
    }
  }

  /** The sums of every instance at 0, 2 and 3. */
  method BatchSums(g: Combiner, Is: seq<Instance>, n: nat) returns (v0: seq<F>, v2: seq<F>, v3: seq<F>)
    requires UniformBatch(Is, n + 1)
    ensures v0 == Sums(g, BindsEach(Is, n, 0), n)
    ensures v2 == Sums(g, BindsEach(Is, n, 2), n)
    ensures v3 == Sums(g, BindsEach(Is, n, 3), n)
  {
    v0, v2, v3 := [], [], [];
    hide HypercubeSum, Binds;
    for j := 0 to |Is|
      invariant |v0| == |v2| == |v3| == j
      invariant forall i :: 0 <= i < j ==> v0[i] == HypercubeSum(g, Binds(Is[i], n, 0), n)
      invariant forall i :: 0 <= i < j ==> v2[i] == HypercubeSum(g, Binds(Is[i], n, 2), n)
      invariant forall i :: 0 <= i < j ==> v3[i] == HypercubeSum(g, Binds(Is[i], n, 3), n)
    {
      var s0, s2, s3 := RoundSums(g, Is[j], n);
      v0, v2, v3 := v0 + [s0], v2 + [s2], v3 + [s3];
    }
  }

  lemma SampledBatch(g: Combiner, cs: seq<F>, Is: seq<Instance>, n: nat, e: F, s0: F, s2: F, s3: F)
    requires |cs| == |Is| && UniformBatch(Is, n + 1)
    requires s0 == Dot(Sums(g, BindsEach(Is, n, 0), n), cs)
    requires s2 == Dot(Sums(g, BindsEach(Is, n, 2), n), cs)
    requires s3 == Dot(Sums(g, BindsEach(Is, n, 3), n), cs)
    ensures Sampled(g, cs, Is, n, 3, Evaluations(3, e, s0, s2, s3))
  {
    hide Dot, Sums, BindsEach;
    forall i: F | 0 <= i <= 3
      ensures Total(g, cs, BindsEach(Is, n, i), n) == Dot(Sums(g, BindsEach(Is, n, i), n), cs)
    {
      DotCommutes(cs, Sums(g, BindsEach(Is, n, i), n));
    }
  }

  method BatchRound(ghost st: Statement, g: Combiner, cs: seq<F>, polys: seq<DensePolynomial>, np: nat, ns: nat, m: nat,
                    e: F, ghost messages: seq<seq<F>>, ghost r: seq<F>, transcript: Transcript)
    returns (message: seq<F>, t: F, e': F)
    requires |polys| == 2 * np + 1 + 3 * ns && |cs| == np + ns
    requires st.Valid() && st.g == g && st.d == 3 && st.cs == cs && |r| + m + 1 == st.n
    requires Distinct(polys) && AllOf(polys, m + 1)
    requires st.Progress(messages, e, r, transcript.log, Triples(TablesOf(polys), np, ns))
    modifies polys, transcript
    ensures AllOf(polys, m)
    ensures Uniform(old(TablesOf(polys)), m + 1)
    ensures TablesOf(polys) == Binds(old(TablesOf(polys)), m, t)
    ensures st.Progress(messages + [message], e', r + [t], transcript.log, Triples(TablesOf(polys), np, ns))
  {
    hide FromEvals, Eval, ErrorProduct, Total, HypercubeSum, LowDegree, Rounds, BindsAll, Binds, Compress, Triples, Sums, TablesOf;
    TablesUniform(polys, m + 1);
    ghost var Ts, log := TablesOf(polys), transcript.log;
    TriplesUniform(Ts, np, ns, m + 1);
    var Is := Triples(TablesOf(polys), np, ns);
    var v0, v2, v3 := BatchSums(g, Is, m);
    var s0 := DotProduct(v0, cs);
    var s2 := DotProduct(v2, cs);
    var s3 := DotProduct(v3, cs);
    SampledBatch(g, cs, Is, m, e, s0, s2, s3);
    var y := Evaluations(3, e, s0, s2, s3);
    var c := FromEvals(y);
    transcript.Append(Polynomial(c));
    t := transcript.ChallengeScalar(RoundChallenge);
    st.Step(messages, e, r, log, Is, m, y, t);
    e' := UniPoly.Evaluate(c, t);
    assert TablesOf(polys) == Ts;
    BindEach(polys, m, t);
    TriplesBind(Ts, np, ns, m, t);
    message := Compress(c);
  }

  /** The products of the final values. */
  function Cubes(v: seq<F>, np: nat, ns: nat): (s: seq<F>)
    requires |v| == 2 * np + 1 + 3 * ns
    ensures |s| == np + ns
  {
    seq<F>(np + ns, j requires 0 <= j < np + ns => Product3(Triple(v, np, ns, j)))
  }

  /** Their weighted sum. */
  function Products(cs: seq<F>, v: seq<F>, np: nat, ns: nat): F
    requires |v| == 2 * np + 1 + 3 * ns && |cs| == np + ns
  {
    Dot(cs, Cubes(v, np, ns))
  }

  /** All rounds. */
  method BatchRounds(ghost st: Statement, claim: F, cs: seq<F>, polys: seq<DensePolynomial>, np: nat, ns: nat, n: nat,
                     transcript: Transcript)
    returns (messages: seq<seq<F>>, r: seq<F>, e: F)
    requires |polys| == 2 * np + 1 + 3 * ns && |cs| == np + ns
    requires Distinct(polys) && AllOf(polys, n) && Uniform(TablesOf(polys), n)
    requires st.Valid() && st.g == Product3 && st.d == 3 && st.cs == cs && st.n == n && st.claim == claim
    requires st.Is == Triples(TablesOf(polys), np, ns) && st.log == transcript.log
    modifies polys, transcript
    ensures AllOf(polys, 0) && |r| == n
    ensures TablesOf(polys) == Bounds(old(TablesOf(polys)), r, 0)
    ensures st.Progress(messages, e, r, transcript.log, Triples(TablesOf(polys), np, ns))
  {
    ghost var Ts := TablesOf(polys);
    hide FromEvals, Eval, ErrorProduct, Total, HypercubeSum, LowDegree, Rounds, BindsAll, Binds, Bounds, Triples, TablesOf, Uniform;
    e := claim;
    messages, r := [], [];
    st.Start();
    BoundsStart(Ts, n);
    for i := 0 to n
      invariant AllOf(polys, n - i) && |r| == i
      invariant TablesOf(polys) == Bounds(Ts, r, n - i)
      invariant st.Progress(messages, e, r, transcript.log, Triples(TablesOf(polys), np, ns))
    {
      var m := n - i - 1;
      var message, t;
      message, t, e := BatchRound(st, Product3, cs, polys, np, ns, m, e, messages, r, transcript);
      assert |r| + m + 1 == n;
      BoundsStep(Ts, r, m, t);
      messages, r := messages + [message], r + [t];
    }
  }

  /** As for a single instance: the verifier accepts, and ends with the weighted sum of the products
      of the tables' values at r, plus the error of a wrong claim times the round weights. */
  method ProveBatched(claim: F, cs: seq<F>, polys: seq<DensePolynomial>, np: nat, ns: nat, n: nat,
                      transcript: Transcript)
    returns (messages: seq<seq<F>>, r: seq<F>, claims: seq<F>)
    requires |polys| == 2 * np + 1 + 3 * ns && |cs| == np + ns
    requires Distinct(polys) && AllOf(polys, n)
    modifies polys, transcript
    ensures AllOf(polys, 0) && |r| == n && |claims| == |polys|
    ensures Uniform(old(TablesOf(polys)), n) && UniformBatch(Triples(old(TablesOf(polys)), np, ns), n)
    ensures forall j :: 0 <= j < |polys| ==> claims[j] == Mle(old(TablesOf(polys))[j], r)
    ensures Verify(messages, claim, n, 3, old(transcript.log))
         == Some(State(Add(Products(cs, claims, np, ns),
                           Mul(Sub(claim, Total(Product3, cs, Triples(old(TablesOf(polys)), np, ns), n)),
                               ErrorProduct(3, r))),
                       r, transcript.log))
  {
    hide ErrorProduct, Total, LowDegree, Uniform, UniformBatch, Rounds, BindsAll, Bounds, Mle, Triples, Products, TablesOf,
         Statement.Valid;
    TablesUniform(polys, n);
    ghost var Ts := TablesOf(polys);
    ghost var st := BatchStatement(Ts, cs, np, ns, n, claim, transcript.log);
    var e;
    messages, r, e := BatchRounds(st, claim, cs, polys, np, ns, n, transcript);
    claims := FinalValues(polys);
    BoundsEnd(Ts, r, claims);
    FinalProducts(cs, TablesOf(polys), np, ns, claims);
  }

  lemma BatchStatement(Ts: Instance, cs: seq<F>, np: nat, ns: nat, n: nat, claim: F, log: Log) returns (st: Statement)
    requires |Ts| == 2 * np + 1 + 3 * ns && |cs| == np + ns && Uniform(Ts, n)
    ensures st == Statement(Product3, cs, Triples(Ts, np, ns), n, 3, claim, log)
    ensures UniformBatch(Triples(Ts, np, ns), n) && st.Valid()
  {
    TriplesUniform(Ts, np, ns, n);
    Product3IsCubic();
    st := Statement(Product3, cs, Triples(Ts, np, ns), n, 3, claim, log);
  }

  lemma BoundsStart(Ts: Instance, n: nat)
    requires Uniform(Ts, n)
    ensures Bounds(Ts, [], n) == Ts
  {
  }

  lemma FinalProducts(cs: seq<F>, Us: Instance, np: nat, ns: nat, claims: seq<F>)
    requires |Us| == |claims| == 2 * np + 1 + 3 * ns && |cs| == np + ns
    requires forall j :: 0 <= j < |Us| ==> Us[j] == [claims[j]]
    ensures UniformBatch(Triples(Us, np, ns), 0)
    ensures Total(Product3, cs, Triples(Us, np, ns), 0) == Products(cs, claims, np, ns)
  {
    TriplesUniform(Us, np, ns, 0);
    var vs := Cubes(claims, np, ns);
    var Is := Triples(Us, np, ns);
    hide Product3, Dot;
    forall j | 0 <= j < np + ns
      ensures Sums(Product3, Is, 0)[j] == vs[j]
    {
      TripleColumn(Us, np, ns, claims, j);
    }
    assert Sums(Product3, Is, 0) == vs;
  }

  lemma TripleColumn(Us: Instance, np: nat, ns: nat, claims: seq<F>, j: nat)
    requires |Us| == |claims| == 2 * np + 1 + 3 * ns && j < np + ns
    requires forall k :: 0 <= k < |Us| ==> Us[k] == [claims[k]]
    ensures Uniform(Triple(Us, np, ns, j), 0)
    ensures Column(Triple(Us, np, ns, j), 0) == Triple(claims, np, ns, j)
  {
  }
}
