/** The sum-check verifier (spartan/src/sumcheck.rs) and its deterministic soundness. */
module SumcheckVerifier {
  import opened Wrappers
  import opened Field
  import opened Vectors
  import opened Powers
  import opened Multilinear
  import opened UniPoly
  import opened Transcript
  import opened Sumcheck

  /** The verifier between rounds: the value still to be checked, the challenges so far, and the
      transcript. */
  datatype State = State(e: F, r: seq<F>, log: Log)

  /** One round: decompress, check degree and g(0) + g(1), append, squeeze, evaluate. */
  function Round(st: State, message: seq<F>, degree: nat): Option<State> {
    if message == [] then None
    else
      var g := Decompress(message, st.e);
      if |g| - 1 != degree || Add(g[0], EvalAtOne(g)) != st.e then None
      else
        var log := st.log + [Polynomial(g)];
        var t := Challenge(log, RoundChallenge);
        Some(State(Eval(g, t), st.r + [t], log + [Squeeze(RoundChallenge)]))
  }

  function Rounds(messages: seq<seq<F>>, claim: F, degree: nat, log: Log): (st: Option<State>)
    ensures st.Some? ==> |st.value.r| == |messages|
  {
    if messages == [] then Some(State(claim, [], log))
    else
      var n := |messages| - 1;
      match Rounds(messages[..n], claim, degree, log)
      case None => None
      case Some(st) => Round(st, messages[n], degree)
  }

  function Verify(messages: seq<seq<F>>, claim: F, numRounds: nat, degree: nat, log: Log): (st: Option<State>)
    ensures st.Some? ==> |st.value.r| == numRounds
  {
    if |messages| == numRounds then Rounds(messages, claim, degree, log) else None
  }

  /** `SumcheckInstanceProof::verify`; a failed assertion is a None result. */
  method VerifyProof(messages: seq<seq<F>>, claim: F, numRounds: nat, degree: nat, transcript: Transcript)
    returns (result: Option<(F, seq<F>)>)
    modifies transcript
    ensures match Verify(messages, claim, numRounds, degree, old(transcript.log))
            case None => result == None
            case Some(st) => result == Some((st.e, st.r)) && transcript.log == st.log
  {
    hide Eval, EvalAtOne, Decompress, Challenge;
    if |messages| != numRounds {
      return None;
    }
    var e, r := claim, [];
    ghost var log := transcript.log;
    var i := 0;
    while i < |messages|
      invariant 0 <= i <= |messages|
      invariant Rounds(messages[..i], claim, degree, log) == Some(State(e, r, transcript.log))
    {
      assert messages[..i + 1][..i] == messages[..i];
      if messages[i] == [] {
        RoundsNone(messages, claim, degree, log, i + 1);
        return None;
      }
      var g := DecompressLoop(messages[i], e);
      if |g| - 1 != degree || Add(g[0], EvalAtOne(g)) != e {
        RoundsNone(messages, claim, degree, log, i + 1);
        return None;
      }
      transcript.Append(Polynomial(g));
      var t := transcript.ChallengeScalar(RoundChallenge);
      r := r + [t];
      e := Evaluate(g, t);
      i := i + 1;
    }
    assert messages[..i] == messages;
    result := Some((e, r));
  }

  lemma {:induction false} RoundsNone(messages: seq<seq<F>>, claim: F, degree: nat, log: Log, i: nat)
    requires i <= |messages|
    requires Rounds(messages[..i], claim, degree, log) == None
    ensures Rounds(messages, claim, degree, log) == None
    decreases |messages| - i
  {
    if i == |messages| {
      assert messages[..i] == messages;
    } else {
      assert messages[..i + 1][..i] == messages[..i];
      RoundsNone(messages, claim, degree, log, i + 1);
    }
  }

  /** The only rounds that are rejected are those whose message has the wrong length. */
  lemma RoundRejectsOnlyLength(st: State, message: seq<F>, degree: nat)
    ensures Round(st, message, degree).None? <==> |message| != degree || message == []
  {
    if message != [] {
      DecompressMeetsHint(message, st.e);
    }
  }

  // ---- Tables bound to a prefix of the challenges ----

  ghost function BindsAll(Is: seq<Instance>, r: seq<F>, n: nat): (Js: seq<Instance>)
    requires UniformBatch(Is, |r| + n)
    ensures |Js| == |Is| && UniformBatch(Js, n)
    ensures forall j :: 0 <= j < |Is| ==> |Js[j]| == |Is[j]|
    decreases |r|
  {
    if r == [] then Is else BindsEach(BindsAll(Is, r[..|r| - 1], n + 1), n, r[|r| - 1])
  }

  lemma {:induction false} BindsAllPointwise(Is: seq<Instance>, r: seq<F>, n: nat, j: nat, k: nat)
    requires UniformBatch(Is, |r| + n)
    requires j < |Is| && k < |Is[j]|
    ensures BindsAll(Is, r, n)[j][k] == BindAll(Is[j][k], r, n)
    decreases |r|
  {
    if r != [] {
      BindsAllPointwise(Is, r[..|r| - 1], n + 1, j, k);
    }
  }

  /** The tables of one instance bound to r, with n variables left. */
  ghost function Bounds(Ts: Instance, r: seq<F>, n: nat): (Us: Instance)
    requires Uniform(Ts, |r| + n)
    ensures |Us| == |Ts| && Uniform(Us, n)
  {
    seq(|Ts|, j requires 0 <= j < |Ts| => BindAll(Ts[j], r, n))
  }

  lemma BoundsStep(Ts: Instance, r: seq<F>, n: nat, t: F)
    requires Uniform(Ts, |r| + n + 1)
    ensures Bounds(Ts, r + [t], n) == Binds(Bounds(Ts, r, n + 1), n, t)
  {
    assert (r + [t])[..|r|] == r;
  }

  lemma BoundsAt(Ts: Instance, r: seq<F>, j: nat)
    requires Uniform(Ts, |r|) && j < |Ts|
    ensures Bounds(Ts, r, 0)[j] == [Mle(Ts[j], r)]
  {
    BindAllIsMle(Ts[j], r);
  }

  lemma BoundsEnd(Ts: Instance, r: seq<F>, vs: seq<F>)
    requires Uniform(Ts, |r|) && |vs| == |Ts|
    requires forall j :: 0 <= j < |Ts| ==> Bounds(Ts, r, 0)[j] == [vs[j]]
    ensures forall j :: 0 <= j < |Ts| ==> vs[j] == Mle(Ts[j], r)
  {
    hide Mle, BindAll;
    forall j | 0 <= j < |Ts|
      ensures vs[j] == Mle(Ts[j], r)
    {
      BoundsAt(Ts, r, j);
      assert [vs[j]][0] == [Mle(Ts[j], r)][0];
    }
  }

  /** g of every list. */
  ghost function Each(g: Combiner, vs: seq<seq<F>>): (gs: seq<F>)
    ensures |gs| == |vs|
  {
    seq<F>(|vs|, j requires 0 <= j < |vs| => g(vs[j]))
  }

  /** With every variable bound the total is the weighted combination of the tables' extensions. */
  lemma TotalAtPoint(g: Combiner, cs: seq<F>, Is: seq<Instance>, r: seq<F>, vs: seq<seq<F>>)
    requires |cs| == |Is| == |vs| && UniformBatch(Is, |r|)
    requires forall j :: 0 <= j < |Is| ==> |vs[j]| == |Is[j]|
    requires forall j, k :: 0 <= j < |Is| && 0 <= k < |Is[j]| ==> vs[j][k] == Mle(Is[j][k], r)
    ensures Total(g, cs, BindsAll(Is, r, 0), 0) == Dot(cs, Each(g, vs))
  {
    var Js := BindsAll(Is, r, 0);
    var gs := Each(g, vs);
    forall j | 0 <= j < |Is|
      ensures Sums(g, Js, 0)[j] == gs[j]
    {
      forall k | 0 <= k < |Is[j]|
        ensures Js[j][k][0] == vs[j][k]
      {
        BindsAllPointwise(Is, r, 0, j, k);
        BindAllIsMle(Is[j][k], r);
      }
      assert Column(Js[j], 0) == vs[j];
    }
    assert Sums(g, Js, 0) == gs;
  }

  // ---- Soundness ----

  /** The last round adds one challenge to those of the rounds before it. */
  lemma RoundExtends(messages: seq<seq<F>>, claim: F, degree: nat, log: Log)
    requires messages != [] && Rounds(messages, claim, degree, log).Some?
    ensures Rounds(messages[..|messages| - 1], claim, degree, log).Some?
    ensures Rounds(messages[..|messages| - 1], claim, degree, log).value.r
         == Rounds(messages, claim, degree, log).value.r[..|messages| - 1]
  {
    hide Eval, EvalAtOne, Decompress, Challenge;
  }

  /** What the last accepted round checked, and the value it left. */
  lemma LastRound(messages: seq<seq<F>>, claim: F, degree: nat, log: Log)
    requires messages != [] && Rounds(messages, claim, degree, log).Some?
    ensures var n := |messages| - 1;
            var before, st := Rounds(messages[..n], claim, degree, log), Rounds(messages, claim, degree, log).value;
            && before.Some? && messages[n] != []
            && var g := Decompress(messages[n], before.value.e);
               |g| == degree + 1 && Add(g[0], EvalAtOne(g)) == before.value.e && st.e == Eval(g, st.r[n])
  {
    hide Eval, EvalAtOne, Decompress, Challenge;
  }

  lemma {:induction false} PrefixAccepted(messages: seq<seq<F>>, claim: F, degree: nat, log: Log, i: nat)
    requires i <= |messages| && Rounds(messages, claim, degree, log).Some?
    ensures Rounds(messages[..i], claim, degree, log).Some?
    ensures Rounds(messages[..i], claim, degree, log).value.r == Rounds(messages, claim, degree, log).value.r[..i]
    decreases |messages|
  {
    hide Round;
    var n := |messages|;
    if i == n {
      assert messages[..i] == messages;
    } else {
      RoundExtends(messages, claim, degree, log);
      PrefixAccepted(messages[..n - 1], claim, degree, log, i);
      assert messages[..n - 1][..i] == messages[..i];
    }
  }

  /** An accepting run of the verifier on a claim about the given tables. */
  datatype Run = Run(f: Combiner, cs: seq<F>, Is: seq<Instance>, n: nat,
                     messages: seq<seq<F>>, claim: F, degree: nat, log: Log)
  {
    ghost predicate Accepting() {
      && |cs| == |Is|
      && UniformBatch(Is, n)
      && Verify(messages, claim, n, degree, log).Some?
    }

    ghost function Challenges(): (r: seq<F>)
      requires Accepting()
      ensures |r| == n
    {
      Verify(messages, claim, n, degree, log).value.r
    }

    /** The value the verifier still has to check after i rounds. */
    ghost function Value(i: nat): F
      requires Accepting() && i <= n
    {
      PrefixAccepted(messages, claim, degree, log, i);
      Rounds(messages[..i], claim, degree, log).value.e
    }

    /** The tables after i rounds. */
    ghost function Tables(i: nat): (Js: seq<Instance>)
      requires Accepting() && i <= n
      ensures |Js| == |Is| && UniformBatch(Js, n - i)
    {
      BindsAll(Is, Challenges()[..i], n - i)
    }

    /** The sum that value should be. */
    ghost function TrueValue(i: nat): F
      requires Accepting() && i <= n
    {
      Total(f, cs, Tables(i), n - i)
    }

    /** The polynomial the verifier accepts in round i. */
    ghost function Sent(i: nat): seq<F>
      requires Accepting() && i < n && messages[i] != []
    {
      Decompress(messages[i], Value(i))
    }

    /** The polynomial an honest prover sends in round i, at t. */
    ghost function Honest(i: nat, t: F): F
      requires Accepting() && i < n
    {
      Total(f, cs, BindsEach(Tables(i), n - i - 1, t), n - i - 1)
    }

    /** In round i the polynomial sent is not the honest one, yet agrees with it at the challenge. */
    ghost predicate Deceived(i: nat)
      requires Accepting()
    {
      && i < n
      && messages[i] != []
      && (Eval(Sent(i), 0) != Honest(i, 0) || Eval(Sent(i), 1) != Honest(i, 1))
      && Eval(Sent(i), Challenges()[i]) == Honest(i, Challenges()[i])
    }

    lemma RoundValues(i: nat)
      requires Accepting() && i < n
      ensures messages[i] != [] && |Sent(i)| == degree + 1
      ensures Value(i) == Add(Eval(Sent(i), 0), Eval(Sent(i), 1))
      ensures Value(i + 1) == Eval(Sent(i), Challenges()[i])
    {
      hide Eval, EvalAtOne, Decompress, UniformBatch;
      PrefixAccepted(messages, claim, degree, log, i);
      PrefixAccepted(messages, claim, degree, log, i + 1);
      assert messages[..i + 1][..i] == messages[..i];
      LastRound(messages[..i + 1], claim, degree, log);
      EvalAtZero(Sent(i));
      EvalAtOneIsEval(Sent(i));
    }

    lemma TrueValueSplits(i: nat)
      requires Accepting() && i < n
      ensures TrueValue(i) == Add(Honest(i, 0), Honest(i, 1))
    {
      hide Verify, Total, BindsAll;
      TotalSplits(f, cs, Tables(i), n - i - 1);
    }

    lemma TablesStep(i: nat)
      requires Accepting() && i < n
      ensures Tables(i + 1) == BindsEach(Tables(i), n - i - 1, Challenges()[i])
    {
      var r := Challenges()[..i + 1];
      assert r[..i] == Challenges()[..i] && r[i] == Challenges()[i];
    }

    lemma TrueValueStep(i: nat)
      requires Accepting() && i < n
      ensures TrueValue(i + 1) == Honest(i, Challenges()[i])
    {
      TablesStep(i);
    }

    lemma {:induction false} FindDeceived(k: nat) returns (i: nat)
      requires Accepting() && k <= n
      requires Value(k) != TrueValue(k)
      requires Value(n) == TrueValue(n)
      ensures Deceived(i)
      decreases n - k
    {
      RoundValues(k);
      TrueValueSplits(k);
      TrueValueStep(k);
      if Value(k + 1) == TrueValue(k + 1) {
        i := k;
      } else {
        i := FindDeceived(k + 1);
      }
    }

    /** Deterministic soundness. If the claim is false and the final value nevertheless matches the
        tables, then some round was deceived. */
    lemma Soundness() returns (i: nat)
      requires Accepting()
      requires claim != Total(f, cs, Is, n)
      requires Verify(messages, claim, n, degree, log).value.e == Total(f, cs, BindsAll(Is, Challenges(), 0), 0)
      ensures Deceived(i)
    {
      assert messages[..0] == [] && messages[..n] == messages;
      assert Challenges()[..0] == [] && Challenges()[..n] == Challenges();
      i := FindDeceived(0);
    }

    lemma HonestIsPolynomial(i: nat) returns (c: seq<F>)
      requires Accepting() && i < n
      requires degree == 2 || degree == 3
      requires LowDegreeBatch(f, Is, degree)
      ensures |c| == degree + 1
      ensures forall t: F :: Honest(i, t) == Eval(c, t)
    {
      hide Total, Eval, BindsEach, BindsAll, Verify;
      c := RoundIsPolynomial(f, cs, Tables(i), n - i - 1, degree);
    }

    /** In a deceived round at most `degree` challenges would have let the prover through. */
    lemma FewDeceptions(i: nat, good: set<F>)
      requires Accepting() && Deceived(i)
      requires degree == 2 || degree == 3
      requires LowDegreeBatch(f, Is, degree)
      requires forall t :: t in good ==> Eval(Sent(i), t) == Honest(i, t)
      ensures |good| <= degree
    {
      RoundValues(i);
      var c := HonestIsPolynomial(i);
      var x := if Eval(Sent(i), 0) != Honest(i, 0) then 0 else 1;
      FewAgreements(Sent(i), c, x, good);
    }
  }

  /** Some round of the run was deceived. */
  ghost predicate Cheated(run: Run) {
    run.Accepting() && exists i: nat :: run.Deceived(i)
  }
}
