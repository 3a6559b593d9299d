/** Tables in the opposite bit order (`vec_to_ark_mle` in nova/src/ccs/mle.rs): reversing the index bits
    turns the big-endian evaluation of one library into the little-endian one of the other. */
module BitReversal {
  import opened Field
  import opened Vectors
  import opened Powers
  import opened Multilinear
  import opened Merging

  /** The low n bits of i in reverse order. */
  function ReverseBits(i: nat, n: nat): (r: nat)
    ensures r < Pow2(n)
  {
    if n == 0 then 0 else ReverseBits(i / 2, n - 1) + if i % 2 == 1 then Pow2(n - 1) else 0
  }

  function Reversed(Z: Table, n: nat): (T: Table)
    requires |Z| == Pow2(n)
    ensures |T| == |Z|
  {
    seq<F>(|Z|, i requires 0 <= i < |Z| => Z[ReverseBits(i, n)])
  }

  /** `vec_to_ark_mle`, for at least two entries. */
  method VecToArkMle(z: seq<F>, ghost s: nat) returns (T: Table)
    requires |z| >= 2 && s == Log2(|z|)
    ensures |PadPow2(z)| == Pow2(s)
    ensures T == Reversed(PadPow2(z), s)
  {
    NextPow2IsLeast(|z|);
    var bits := Log2(|z|);
    T := Zeros(NextPow2(|z|));
    for i := 0 to |T|
      invariant |T| == Pow2(s)
      invariant forall k :: 0 <= k < i ==> T[k] == PadPow2(z)[ReverseBits(k, s)]
      invariant forall k :: i <= k < |T| ==> T[k] == 0
    {
      var mark := ReverseBits(i, bits);
      if mark < |z| {
        T := T[i := z[mark]];
      }
    }
  }

  /** Little-endian evaluation: the first coordinate is the lowest bit of the index. */
  function ArkEvaluate(Z: Table, r: seq<F>): F
    requires |Z| == Pow2(|r|)
    decreases |r|
  {
    if r == [] then Z[0] else ArkEvaluate(BindLast(Z, r[0]), r[1..])
  }

  lemma ReversedPair(Z: Table, n: nat, i: nat)
    requires |Z| == Pow2(n + 1) && i < Pow2(n)
    ensures Reversed(Z, n + 1)[2 * i] == Z[ReverseBits(i, n)]
    ensures Reversed(Z, n + 1)[2 * i + 1] == Z[Pow2(n) + ReverseBits(i, n)]
  {
    hide ReverseBits;
    ReverseDouble(i, n);
  }

  lemma ReverseDouble(i: nat, n: nat)
    ensures ReverseBits(2 * i, n + 1) == ReverseBits(i, n)
    ensures ReverseBits(2 * i + 1, n + 1) == Pow2(n) + ReverseBits(i, n)
  {
    assert (2 * i) / 2 == i && (2 * i + 1) / 2 == i;
  }

  /** Fixing the lowest bit of the reversed table fixes the top bit of the table. */
  lemma BindReversed(Z: Table, n: nat, t: F)
    requires |Z| == Pow2(n + 1)
    ensures BindLast(Reversed(Z, n + 1), t) == Reversed(Bind(Z, t), n)
  {
    hide Reversed, ReverseBits, Pow2, Interp;
    HalfPower(n + 1);
    forall i | 0 <= i < Pow2(n)
      ensures BindLast(Reversed(Z, n + 1), t)[i] == Reversed(Bind(Z, t), n)[i]
    {
      ReversedPair(Z, n, i);
      ReversedEntry(Bind(Z, t), n, i);
      assert Lo(Z)[ReverseBits(i, n)] == Z[ReverseBits(i, n)];
      assert Hi(Z)[ReverseBits(i, n)] == Z[Pow2(n) + ReverseBits(i, n)];
    }
  }

  lemma ReversedEntry(Z: Table, n: nat, i: nat)
    requires |Z| == Pow2(n) && i < |Z|
    ensures Reversed(Z, n)[i] == Z[ReverseBits(i, n)]
  {
  }

  /** Bit-reversed tables evaluate alike in the two conventions. */
  lemma {:induction false} ArkEvaluatesAlike(Z: Table, r: seq<F>)
    requires |Z| == Pow2(|r|)
    ensures ArkEvaluate(Reversed(Z, |r|), r) == Mle(Z, r)
    decreases |r|
  {
    hide Mle, Bind, BindLast;
    if r == [] {
      LastValue(Z, r);
    } else {
      var n := |r| - 1;
      BindReversed(Z, n, r[0]);
      BindSize(Z, n, r[0]);
      ArkEvaluatesAlike(Bind(Z, r[0]), r[1..]);
      MleBind(Z, r[0], r[1..]);
      assert r == [r[0]] + r[1..];
    }
  }

  lemma BindSize(Z: Table, n: nat, t: F)
    requires |Z| == Pow2(n + 1)
    ensures |Z| % 2 == 0 && |Bind(Z, t)| == Pow2(n)
  {
    hide Pow2;
    HalfPower(n + 1);
  }

  // ---- Inner products ----

  function Evens(Z: Table): (T: Table)
    ensures |T| == |Z| / 2
  {
    seq<F>(|Z| / 2, i requires 0 <= i < |Z| / 2 => Z[2 * i])
  }

  function Odds(Z: Table): (T: Table)
    ensures |T| == |Z| / 2
  {
    seq<F>(|Z| / 2, i requires 0 <= i < |Z| / 2 => Z[2 * i + 1])
  }

  lemma {:induction false} DotInterleaved(A: Table, B: Table, k: nat)
    requires |A| == |B| && 2 * k <= |A|
    ensures Dot(A[..2 * k], B[..2 * k]) == Add(Dot(Evens(A)[..k], Evens(B)[..k]), Dot(Odds(A)[..k], Odds(B)[..k]))
  {
    hide Dot;
    if k == 0 {
      NoEntries(A, B);
      NoEntries(Evens(A), Evens(B));
      NoEntries(Odds(A), Odds(B));
      AddZero(0);
    } else {
      var i := k - 1;
      DotInterleaved(A, B, i);
      assert 2 * k == 2 * i + 1 + 1;
      DotOfPrefix(A, B, 2 * i);
      DotOfPrefix(A, B, 2 * i + 1);
      DotOfPrefix(Evens(A), Evens(B), i);
      DotOfPrefix(Odds(A), Odds(B), i);
      var e, o := Dot(Evens(A)[..i], Evens(B)[..i]), Dot(Odds(A)[..i], Odds(B)[..i]);
      var p, q := Mul(A[2 * i], B[2 * i]), Mul(A[2 * i + 1], B[2 * i + 1]);
      AddAssociates(Add(e, o), p, q);
      AddExchanges(e, o, p, q);
    }
  }

  lemma NoEntries(A: Table, B: Table)
    ensures Dot(A[..0], B[..0]) == 0
  {
  }

  lemma ReversedHalves(Z: Table, n: nat)
    requires |Z| == Pow2(n + 1)
    ensures Evens(Reversed(Z, n + 1)) == Reversed(Lo(Z), n)
    ensures Odds(Reversed(Z, n + 1)) == Reversed(Hi(Z), n)
  {
    hide Reversed, ReverseBits;
    hide Pow2;
    HalfPower(n + 1);
    forall i | 0 <= i < Pow2(n)
      ensures Evens(Reversed(Z, n + 1))[i] == Reversed(Lo(Z), n)[i]
      ensures Odds(Reversed(Z, n + 1))[i] == Reversed(Hi(Z), n)[i]
    {
      ReversedPair(Z, n, i);
      ReversedEntry(Lo(Z), n, i);
      ReversedEntry(Hi(Z), n, i);
    }
  }

  /** Reversing both tables keeps their inner product. */
  lemma {:induction false} DotReversed(A: Table, B: Table, n: nat)
    requires |A| == |B| == Pow2(n)
    ensures Dot(Reversed(A, n), Reversed(B, n)) == Dot(A, B)
    decreases n
  {
    hide Reversed, Dot, Evens, Odds;
    if n == 0 {
      ReversedOne(A);
      ReversedOne(B);
    } else {
      var h, R, S := Pow2(n - 1), Reversed(A, n), Reversed(B, n);
      DotInterleaved(R, S, h);
      assert R[..2 * h] == R && S[..2 * h] == S;
      ReversedHalves(A, n - 1);
      ReversedHalves(B, n - 1);
      WholePrefix(Reversed(Lo(A), n - 1), Reversed(Lo(B), n - 1), h);
      WholePrefix(Reversed(Hi(A), n - 1), Reversed(Hi(B), n - 1), h);
      DotReversed(Lo(A), Lo(B), n - 1);
      DotReversed(Hi(A), Hi(B), n - 1);
      assert A == Lo(A) + Hi(A) && B == Lo(B) + Hi(B);
      DotAppend(Lo(A), Hi(A), Lo(B), Hi(B));
    }
  }

  lemma WholePrefix(A: Table, B: Table, h: nat)
    requires |A| == |B| == h
    ensures A[..h] == A && B[..h] == B
  {
  }

  lemma ReversedOne(A: Table)
    requires |A| == 1
    ensures Reversed(A, 0) == A
  {
  }
}
