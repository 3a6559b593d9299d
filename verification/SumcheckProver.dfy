/** The sum-check provers: `prove_cubic` and `prove_cubic_batched` (spartan/src/sumcheck.rs),
    `prove_quad` and `prove_cubic_five_terms` (spartan/src/crr1csproof.rs). The three provers of a
    single instance differ only in the number of tables and in the degree, and are one method here. */
module SumcheckProver {
  import opened Wrappers
  import opened Field
  import opened Vectors
  import opened Powers
  import opened Multilinear
  import opened UniPoly
  import opened Transcript
  import opened DensePolynomial
  import opened Sumcheck
  import opened SumcheckVerifier

  // ---- What every prover keeps ----

  /** The factor by which an error in the claim is multiplied over the rounds. */
  ghost function ErrorProduct(d: nat, r: seq<F>): F
    requires d == 2 || d == 3
  {
    if r == [] then 1 else Mul(ErrorProduct(d, r[..|r| - 1]), ErrorWeight(d + 1, r[|r| - 1]))
  }

  /** A statement to prove: the weighted sum of the instances' hypercube sums, claimed to be `claim`,
      by a prover that starts from the transcript `log`. */
  datatype Statement = Statement(g: Combiner, cs: seq<F>, Is: seq<Instance>, n: nat, d: nat, claim: F, log: Log)
  {
    ghost predicate Valid() {
      && (d == 2 || d == 3)
      && |cs| == |Is|
      && UniformBatch(Is, n)
      && LowDegreeBatch(g, Is, d)
    }

    ghost function Error(): F
      requires Valid()
    {
      Sub(claim, Total(g, cs, Is, n))
    }

    /** After |r| rounds the verifier accepts the messages so far and derives the same challenges and
        transcript, the tables are bound to the challenges, and the value e is the sum over the bound
        tables plus the error of the claim times the product of the round weights. */
    ghost predicate Progress(messages: seq<seq<F>>, e: F, r: seq<F>, log': Log, Js: seq<Instance>)
      requires Valid()
    {
      && |r| <= n
      && Rounds(messages, claim, d, log) == Some(State(e, r, log'))
      && Js == BindsAll(Is, r, n - |r|)
      && e == Add(Total(g, cs, Js, n - |r|), Mul(Error(), ErrorProduct(d, r)))
    }

    lemma Start()
      requires Valid()
      ensures Progress([], claim, [], log, Is)
    {
      MulOne(Error());
      AddSub(Total(g, cs, Is, n), claim);
    }

    lemma RoundAccepted(messages: seq<seq<F>>, e: F, r: seq<F>, log': Log, y: seq<F>, t: F)
      requires (d == 2 || d == 3) && |y| == d + 1 && y[1] == Sub(e, y[0])
      requires Rounds(messages, claim, d, log) == Some(State(e, r, log'))
      requires t == Challenge(log' + [Polynomial(FromEvals(y))], RoundChallenge)
      ensures Rounds(messages + [Compress(FromEvals(y))], claim, d, log)
           == Some(State(Eval(FromEvals(y), t), r + [t],
                         log' + [Polynomial(FromEvals(y))] + [Squeeze(RoundChallenge)]))
    {
      var c := FromEvals(y);
      FromEvalsEnds(y);
      hide FromEvals;
      AddSub(y[0], e);
      CompressRoundTrip(c, e);
      var ms := messages + [Compress(c)];
      assert ms[..|ms| - 1] == messages;
    }

    lemma TablesStep(r: seq<F>, t: F, m: nat)
      requires Valid() && |r| + m + 1 == n
      ensures BindsAll(Is, r + [t], m) == BindsEach(BindsAll(Is, r, m + 1), m, t)
    {
      assert (r + [t])[..|r|] == r;
    }

    lemma ValueStep(e: F, r: seq<F>, Js: seq<Instance>, m: nat, y: seq<F>, t: F)
      requires Valid()
      requires |Js| == |cs| && UniformBatch(Js, m + 1) && LowDegreeBatch(g, Js, d)
      requires e == Add(Total(g, cs, Js, m + 1), Mul(Error(), ErrorProduct(d, r)))
      requires Sampled(g, cs, Js, m, d, y) && y[1] == Sub(e, y[0])
      ensures Eval(FromEvals(y), t)
           == Add(Total(g, cs, BindsEach(Js, m, t), m), Mul(Error(), ErrorProduct(d, r + [t])))
    {
      hide FromEvals, ErrorWeight, Eval, Total, BindsEach;
      HonestRound(g, cs, Js, m, d, e, y, t);
      assert (r + [t])[..|r|] == r;
      ErrorGrows(e, Total(g, cs, Js, m + 1), Error(), ErrorProduct(d, r), ErrorWeight(d + 1, t));
    }

    /** One honest round keeps Progress. */
    lemma Step(messages: seq<seq<F>>, e: F, r: seq<F>, log': Log, Js: seq<Instance>, m: nat, y: seq<F>, t: F)
      requires Valid() && |r| + m + 1 == n
      requires |Js| == |cs| && UniformBatch(Js, m + 1)
      requires Progress(messages, e, r, log', Js)
      requires Sampled(g, cs, Js, m, d, y) && y[1] == Sub(e, y[0])
      requires t == Challenge(log' + [Polynomial(FromEvals(y))], RoundChallenge)
      ensures Progress(messages + [Compress(FromEvals(y))], Eval(FromEvals(y), t), r + [t],
                       log' + [Polynomial(FromEvals(y))] + [Squeeze(RoundChallenge)],
                       BindsEach(Js, m, t))
    {
      hide FromEvals, ErrorWeight, Eval, Total, LowDegree, BindsEach, BindsAll, ErrorProduct, Rounds, Compress;
      RoundAccepted(messages, e, r, log', y, t);
      TablesStep(r, t, m);
      ValueStep(e, r, Js, m, y, t);
    }
  }

  lemma ErrorGrows(e: F, total: F, error: F, product: F, weight: F)
    requires e == Add(total, Mul(error, product))
    ensures Mul(Sub(e, total), weight) == Mul(error, Mul(product, weight))
  {
    SubOfSum(total, Mul(error, product));
    MulAssociates(error, product, weight);
  }

  // ---- One round's sums ----

  lemma LineAt(l: int, h: int, k: int)
    ensures Interp(Of(l), Of(h), Of(k)) == Of(l + k * (h - l))
  {
    OfSub(h, l);
    OfMul(k, h - l);
    OfAdd(l, k * (h - l));
  }

  lemma ExtrapolateTo2(lo: F, hi: F)
    ensures Sub(Add(hi, hi), lo) == Interp(lo, hi, 2)
  {
    Representatives(lo, hi, 2);
    LineAt(lo, hi, 2);
    OfAdd(hi, hi);
    OfSub(hi + hi, lo);
  }

  lemma ExtrapolateTo3(lo: F, hi: F)
    ensures Sub(Add(Interp(lo, hi, 2), hi), lo) == Interp(lo, hi, 3)
  {
    OfRepresentative(lo);
    OfRepresentative(hi);
    OfRepresentative(2);
    OfRepresentative(3);
    LineAt(lo, hi, 2);
    LineAt(lo, hi, 3);
    OfAdd(lo + 2 * (hi - lo), hi);
    OfSub(lo + 2 * (hi - lo) + hi, lo);
  }

  function AtTwo(lo: seq<F>, hi: seq<F>): seq<F>
    requires |lo| == |hi|
  {
    seq(|lo|, j requires 0 <= j < |lo| => Sub(Add(hi[j], hi[j]), lo[j]))
  }

  function AtThree(lo: seq<F>, hi: seq<F>): seq<F>
    requires |lo| == |hi|
  {
    seq(|lo|, j requires 0 <= j < |lo| => Sub(Add(AtTwo(lo, hi)[j], hi[j]), lo[j]))
  }

  lemma ColumnsOfBinds(Ts: Instance, n: nat, i: nat)
    requires Uniform(Ts, n + 1) && i < Pow2(n)
    ensures Column(Binds(Ts, n, 0), i) == Column(Ts, i)
    ensures Column(Binds(Ts, n, 2), i) == AtTwo(Column(Ts, i), Column(Ts, Pow2(n) + i))
    ensures Column(Binds(Ts, n, 3), i) == AtThree(Column(Ts, i), Column(Ts, Pow2(n) + i))
  {
    forall j | 0 <= j < |Ts|
      ensures Binds(Ts, n, 0)[j][i] == Ts[j][i]
      ensures Binds(Ts, n, 2)[j][i] == AtTwo(Column(Ts, i), Column(Ts, Pow2(n) + i))[j]
      ensures Binds(Ts, n, 3)[j][i] == AtThree(Column(Ts, i), Column(Ts, Pow2(n) + i))[j]
    {
      var lo, hi := Ts[j][i], Ts[j][Pow2(n) + i];
      InterpEnds(lo, hi);
      ExtrapolateTo2(lo, hi);
      ExtrapolateTo3(lo, hi);
    }
  }

  /** The inner loop of every prover: the sums with the first variable at 0, 2 and 3. */
  method RoundSums(g: Combiner, Ts: Instance, n: nat) returns (s0: F, s2: F, s3: F)
    requires Uniform(Ts, n + 1)
    ensures s0 == HypercubeSum(g, Binds(Ts, n, 0), n)
    ensures s2 == HypercubeSum(g, Binds(Ts, n, 2), n)
    ensures s3 == HypercubeSum(g, Binds(Ts, n, 3), n)
  {
    var len := Pow2(n);
    ghost var B0, B2, B3 := Binds(Ts, n, 0), Binds(Ts, n, 2), Binds(Ts, n, 3);
    s0, s2, s3 := 0, 0, 0;
    for i := 0 to len
      invariant s0 == PartialSum(g, B0, i)
      invariant s2 == PartialSum(g, B2, i)
      invariant s3 == PartialSum(g, B3, i)
    {
      ColumnsOfBinds(Ts, n, i);
      var lo, hi := Column(Ts, i), Column(Ts, len + i);
      s0 := Add(s0, g(lo));
      s2 := Add(s2, g(AtTwo(lo, hi)));
      s3 := Add(s3, g(AtThree(lo, hi)));
    }
    PartialSumIsHypercubeSum(g, B0, n);
    PartialSumIsHypercubeSum(g, B2, n);
    PartialSumIsHypercubeSum(g, B3, n);
  }

  // ---- Lists of polynomials ----

  ghost predicate Distinct(polys: seq<DensePolynomial>) {
    forall i, j :: 0 <= i < j < |polys| ==> polys[i] != polys[j]
  }

  /** Every polynomial of the list is well formed and has n variables left. */
  ghost predicate AllOf(polys: seq<DensePolynomial>, n: nat)
    reads polys
  {
    forall j :: 0 <= j < |polys| ==> polys[j].Valid() && polys[j].numVars == n
  }

  function TablesOf(polys: seq<DensePolynomial>): (Ts: Instance)
    reads polys
    ensures |Ts| == |polys|
  {
    seq(|polys|, j requires 0 <= j < |polys| reads polys => polys[j].Z)
  }

  lemma TablesUniform(polys: seq<DensePolynomial>, n: nat)
    requires AllOf(polys, n)
    ensures Uniform(TablesOf(polys), n)
  {
  }

  /** Binds the first variable of every polynomial of the list. */
  method BindEach(polys: seq<DensePolynomial>, n: nat, t: F)
    requires Distinct(polys) && AllOf(polys, n + 1)
    modifies polys
    ensures AllOf(polys, n)
    ensures Uniform(old(TablesOf(polys)), n + 1)
    ensures TablesOf(polys) == Binds(old(TablesOf(polys)), n, t)
  {
    TablesUniform(polys, n + 1);
    BindLoop(polys, n, t);
    assert TablesOf(polys) == Binds(old(TablesOf(polys)), n, t);
  }

  method BindLoop(polys: seq<DensePolynomial>, n: nat, t: F)
    requires Distinct(polys) && AllOf(polys, n + 1)
    modifies polys
    ensures AllOf(polys, n)
    ensures forall j :: 0 <= j < |polys| ==> |old(polys[j].Z)| % 2 == 0 && polys[j].Z == Bind(old(polys[j].Z), t)
  {
    hide Bind;
    for i := 0 to |polys|
      invariant forall j :: i <= j < |polys| ==>
                  polys[j].Valid() && polys[j].numVars == n + 1 && polys[j].Z == old(polys[j].Z)
      invariant forall j :: 0 <= j < i ==>
                  && polys[j].Valid() && polys[j].numVars == n
                  && |old(polys[j].Z)| % 2 == 0 && polys[j].Z == Bind(old(polys[j].Z), t)
    {
      assert |polys[i].Z| % 2 == 0;
      polys[i].BoundPolyVarTop(t);
    }
  }

  /** The entries left when every variable is bound. */
  method FinalValues(polys: seq<DensePolynomial>) returns (values: seq<F>)
    requires AllOf(polys, 0)
    ensures |values| == |polys|
    ensures forall j :: 0 <= j < |polys| ==> TablesOf(polys)[j] == [values[j]]
  {
    TablesUniform(polys, 0);
    values := Column(TablesOf(polys), 0);
  }

  // ---- The provers ----

  lemma TotalOfOne(g: Combiner, Ts: Instance, n: nat)
    requires Uniform(Ts, n)
    ensures Total(g, [1], [Ts], n) == HypercubeSum(g, Ts, n)
  {
    var h := HypercubeSum(g, Ts, n);
    assert Sums(g, [Ts], n) == [h];
    assert Dot([1], [h]) == Add(Dot([1][..0], [h][..0]), Mul(1, h));
    MulOne(h);
    AddZero(h);
  }

  /** The values an honest prover interpolates, from the claimed value e and the sums at 0, 2, 3. */
  function Evaluations(d: nat, e: F, s0: F, s2: F, s3: F): (y: seq<F>)
    requires d == 2 || d == 3
    ensures |y| == d + 1
  {
    if d == 2 then [s0, Sub(e, s0), s2] else [s0, Sub(e, s0), s2, s3]
  }

  lemma SampledOne(g: Combiner, Ts: Instance, n: nat, d: nat, e: F, s0: F, s2: F, s3: F)
    requires (d == 2 || d == 3) && Uniform(Ts, n + 1)
    requires s0 == HypercubeSum(g, Binds(Ts, n, 0), n)
    requires s2 == HypercubeSum(g, Binds(Ts, n, 2), n)
    requires s3 == HypercubeSum(g, Binds(Ts, n, 3), n)
    ensures Sampled(g, [1], [Ts], n, d, Evaluations(d, e, s0, s2, s3))
  {
    forall i: F | 0 <= i <= d
      ensures Total(g, [1], BindsEach([Ts], n, i), n) == HypercubeSum(g, Binds(Ts, n, i), n)
    {
      assert BindsEach([Ts], n, i) == [Binds(Ts, n, i)];
      TotalOfOne(g, Binds(Ts, n, i), n);
    }
  }

  /** One round of the three provers of a single instance. */
  method ProveRound(ghost st: Statement, g: Combiner, d: nat, polys: seq<DensePolynomial>, m: nat, e: F,
                    ghost messages: seq<seq<F>>, ghost r: seq<F>, transcript: Transcript)
    returns (message: seq<F>, t: F, e': F)
    requires st.Valid() && st.g == g && st.d == d && st.cs == [1] && |r| + m + 1 == st.n
    requires Distinct(polys) && AllOf(polys, m + 1)
    requires st.Progress(messages, e, r, transcript.log, [TablesOf(polys)])
    modifies polys, transcript
    ensures AllOf(polys, m)
    ensures st.Progress(messages + [message], e', r + [t], transcript.log, [TablesOf(polys)])
  {
    hide FromEvals, Eval, ErrorProduct, Total, HypercubeSum, LowDegree, Rounds, BindsAll, Binds, Mle, Compress;
    TablesUniform(polys, m + 1);
    ghost var Ts, log := TablesOf(polys), transcript.log;
    var s0, s2, s3 := RoundSums(g, TablesOf(polys), m);
    SampledOne(g, Ts, m, d, e, s0, s2, s3);
    var y := Evaluations(d, e, s0, s2, s3);
    var c := FromEvals(y);
    transcript.Append(Polynomial(c));
    t := transcript.ChallengeScalar(RoundChallenge);
    st.Step(messages, e, r, log, [Ts], m, y, t);
    BindEach(polys, m, t);
    assert BindsEach([Ts], m, t) == [TablesOf(polys)];
    e' := UniPoly.Evaluate(c, t);
    message := Compress(c);
  }

  /** `prove_quad`, `prove_cubic` and `prove_cubic_five_terms`.

      The verifier accepts the messages, derives the same challenges r and the same transcript, and
      ends with the combined value of the tables at r - plus, if the claim was wrong, its error times
      the product of the round weights. The tables end bound to their values at r. */
  method Prove(g: Combiner, d: nat, claim: F, polys: seq<DensePolynomial>, n: nat, transcript: Transcript)
    returns (messages: seq<seq<F>>, r: seq<F>, claims: seq<F>)
    requires d == 2 || d == 3
    requires Distinct(polys) && AllOf(polys, n)
    requires LowDegree(g, |polys|, d)
    modifies polys, transcript
    ensures AllOf(polys, 0) && |r| == n && |claims| == |polys|
    ensures Uniform(old(TablesOf(polys)), n)
    ensures forall j :: 0 <= j < |polys| ==> claims[j] == Mle(old(TablesOf(polys))[j], r)
    ensures forall j :: 0 <= j < |polys| ==> polys[j].Z == [claims[j]]
    ensures Verify(messages, claim, n, d, old(transcript.log))
         == Some(State(Add(g(claims), Mul(Sub(claim, HypercubeSum(g, old(TablesOf(polys)), n)), ErrorProduct(d, r))),
                       r, transcript.log))
  {
    hide FromEvals, Eval, ErrorProduct, Total, HypercubeSum, LowDegree, Rounds, BindsAll, Binds, Mle, Compress;
    TablesUniform(polys, n);
    ghost var Ts := TablesOf(polys);
    ghost var st := Statement(g, [1], [Ts], n, d, claim, transcript.log);
    var e := claim;
    messages, r := [], [];
    st.Start();
    for i := 0 to n
      invariant AllOf(polys, n - i) && |r| == i
      invariant st.Progress(messages, e, r, transcript.log, [TablesOf(polys)])
    {
      var message, t;
      message, t, e := ProveRound(st, g, d, polys, n - i - 1, e, messages, r, transcript);
      messages, r := messages + [message], r + [t];
    }
    claims := FinalValues(polys);
    FinalClaims(st, Ts, r, TablesOf(polys), claims);
  }

  lemma FinalClaims(st: Statement, Ts: Instance, r: seq<F>, Us: Instance, claims: seq<F>)
    requires st.Valid() && st.cs == [1] && st.Is == [Ts] && |r| == st.n && |claims| == |Ts| == |Us|
    requires [Us] == BindsAll(st.Is, r, 0)
    requires forall j :: 0 <= j < |Ts| ==> Us[j] == [claims[j]]
    ensures Uniform(Ts, st.n)
    ensures forall j :: 0 <= j < |Ts| ==> claims[j] == Mle(Ts[j], r)
    ensures Total(st.g, [1], [Us], 0) == st.g(claims)
    ensures Total(st.g, [1], [Ts], st.n) == HypercubeSum(st.g, Ts, st.n)
  {
    assert Uniform(st.Is[0], st.n);
    forall j | 0 <= j < |Ts|
      ensures claims[j] == Mle(Ts[j], r)
    {
      BindsAllPointwise(st.Is, r, 0, 0, j);
      BindAllIsMle(Ts[j], r);
    }
    assert Column(Us, 0) == claims;
    TotalOfOne(st.g, Us, 0);
    TotalOfOne(st.g, Ts, st.n);
  }
}
