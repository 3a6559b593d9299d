/** Points at which a nonzero table evaluates to zero, and lines with two roots: how a challenge can hide a
    difference, and how few challenges do. */
module UnluckyPoints {
  import opened Field
  import opened Vectors
  import opened Powers
  import opened Multilinear

  /** The table is not zero, but its extension vanishes at the point. */
  ghost predicate UnluckyPoint(R: Table, tau: seq<F>) {
    |R| == Pow2(|tau|) && (exists i :: 0 <= i < |R| && R[i] != 0) && Mle(R, tau) == 0
  }

  ghost predicate IsZero(Z: Table) {
    forall i :: 0 <= i < |Z| ==> Z[i] == 0
  }

  /** An unlucky point has a coordinate that turns a nonzero table into the zero table. */
  lemma UnluckyCoordinate(R: Table, tau: seq<F>) returns (k: nat)
    requires UnluckyPoint(R, tau)
    ensures k < |tau| && !IsZero(BindAll(R, tau[..k], |tau| - k)) && IsZero(BindAll(R, tau[..k + 1], |tau| - k - 1))
  {
    BindAllIsMle(R, tau);
    assert tau[..|tau|] == tau;
    k := FindCoordinate(R, tau, |tau|);
  }

  lemma {:induction false} FindCoordinate(R: Table, tau: seq<F>, m: nat) returns (k: nat)
    requires |R| == Pow2(|tau|) && m <= |tau| && !IsZero(R) && IsZero(BindAll(R, tau[..m], |tau| - m))
    ensures k < |tau| && !IsZero(BindAll(R, tau[..k], |tau| - k)) && IsZero(BindAll(R, tau[..k + 1], |tau| - k - 1))
    decreases m
  {
    hide IsZero, BindAll;
    if m == 0 {
      NothingBound(R, tau);
    } else if IsZero(BindAll(R, tau[..m - 1], |tau| - m + 1)) {
      k := FindCoordinate(R, tau, m - 1);
      return;
    }
    k := m - 1;
  }

  lemma NothingBound(R: Table, tau: seq<F>)
    requires |R| == Pow2(|tau|)
    ensures BindAll(R, tau[..0], |tau|) == R
  {
  }

  /** At most one challenge does that to a given table. */
  lemma OneUnluckyChallenge(Z: Table, t: F, t': F)
    requires |Z| % 2 == 0 && !IsZero(Z) && IsZero(Bind(Z, t)) && IsZero(Bind(Z, t'))
    ensures t == t'
  {
    var i :| 0 <= i < |Z| && Z[i] != 0;
    var h := |Z| / 2;
    var j := if i < h then i else i - h;
    assert Lo(Z)[j] == Z[j] && Hi(Z)[j] == Z[j + h];
    assert Bind(Z, t)[j] == 0 && Bind(Z, t')[j] == 0;
    if t != t' {
      LineWithTwoRoots(Z[j], Z[j + h], t, t');
    }
  }

  lemma LineWithTwoRoots(a: F, b: F, t: F, t': F)
    requires Interp(a, b, t) == 0 && Interp(a, b, t') == 0 && t != t'
    ensures a == 0 && b == 0
  {
    var d := Sub(b, a);
    LineDifference(a, d, t, t');
    SubIsZero(t, t');
    NoZeroDivisors(Sub(t, t'), d);
    MulZero(t);
    AddZero(a);
    SubIsZero(b, a);
  }

  lemma LineDifference(a: F, d: F, t: F, t': F)
    requires Add(a, Mul(t, d)) == 0 && Add(a, Mul(t', d)) == 0
    ensures Mul(Sub(t, t'), d) == 0
  {
    MulCommutes(Sub(t, t'), d);
    MulCommutes(t, d);
    MulCommutes(t', d);
    DistributesSub(d, t, t');
    AddThenSub(Mul(d, t), a);
    AddThenSub(Mul(d, t'), a);
    AddCommutes(a, Mul(d, t));
    AddCommutes(a, Mul(d, t'));
    SubIsZero(Mul(d, t), Mul(d, t'));
  }
}
