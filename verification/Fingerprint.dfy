/** Fingerprints of memory accesses (`Layers::build_hash_layer` in spartan/src/sparse_mlpoly.rs): an
    affine hash of each access, and the product of the hashes of a multiset. */
module Fingerprint {
  import opened Field
  import opened Vectors
  import opened Powers
  import opened Multilinear
  import opened UniPoly
  import opened Combiners
  import opened MemoryChecking

  /** The two challenges of the memory check: the base of the hash and the point of the product. */
  datatype Keys = Keys(base: F, point: F)

  /** ts * base^2 + val * base + addr - point */
  function Hash(k: Keys, addr: F, val: F, ts: F): F {
    Sub(Add(Add(Mul(ts, Mul(k.base, k.base)), Mul(val, k.base)), addr), k.point)
  }

  function HashAccess(k: Keys, x: Access): F {
    Hash(k, Of(x.addr), x.val, Of(x.ts))
  }

  function Hashes(k: Keys, s: seq<Access>): (h: seq<F>)
    ensures |h| == |s|
  {
    seq<F>(|s|, i requires 0 <= i < |s| => HashAccess(k, s[i]))
  }

  // ---- Equal multisets have equal products ----

  lemma MultisetMoves<T>(p: seq<T>, x: T, q: seq<T>)
    ensures multiset(p + [x] + q) == multiset(p + q) + multiset{x}
  {
  }

  lemma MultisetSnoc<T>(s: seq<T>)
    requires s != []
    ensures multiset(s) == multiset(s[..|s| - 1]) + multiset{s[|s| - 1]}
  {
    assert s == s[..|s| - 1] + [s[|s| - 1]];
  }

  /** Where the last element of s sits in a rearrangement u, and what is left without it. */
  lemma Extract<T>(s: seq<T>, u: seq<T>) returns (p: seq<T>, q: seq<T>)
    requires s != [] && multiset(s) == multiset(u)
    ensures u == p + [s[|s| - 1]] + q
    ensures multiset(s[..|s| - 1]) == multiset(p + q)
  {
    var x := s[|s| - 1];
    MultisetSnoc(s);
    assert x in multiset(u);
    var j :| 0 <= j < |u| && u[j] == x;
    p, q := u[..j], u[j + 1..];
    assert u == p + [x] + q;
    MultisetMoves(p, x, q);
    assert multiset(s[..|s| - 1]) == multiset(s) - multiset{x};
  }

  lemma EmptyMultiset<T>(u: seq<T>)
    requires multiset(u) == multiset{}
    ensures u == []
  {
    assert |multiset(u)| == |u|;
  }

  lemma ProdMoves(a: seq<F>, x: F, b: seq<F>)
    ensures Prod(a + [x] + b) == Mul(Prod(a + b), x)
  {
    hide Prod;
    ProdAppend(a + [x], b);
    ProdAppend(a, [x]);
    ProdAppend(a, b);
    ProdOne(x);
    MulAssociates(Prod(a), x, Prod(b));
    MulCommutes(x, Prod(b));
    MulAssociates(Prod(a), Prod(b), x);
  }

  lemma {:induction false} ProdPermutes(a: seq<F>, b: seq<F>)
    requires multiset(a) == multiset(b)
    ensures Prod(a) == Prod(b)
    decreases |a|
  {
    if a == [] {
      EmptyMultiset(b);
    } else {
      var p, q := Extract(a, b);
      ProdPermutes(a[..|a| - 1], p + q);
      ProdMoves(p, a[|a| - 1], q);
    }
  }

  lemma {:induction false} HashesMultiset(k: Keys, s: seq<Access>, t: seq<Access>)
    requires multiset(s) == multiset(t)
    ensures multiset(Hashes(k, s)) == multiset(Hashes(k, t))
    decreases |s|
  {
    hide HashAccess;
    if s == [] {
      EmptyMultiset(t);
    } else {
      var n := |s| - 1;
      var x := s[n];
      var p, q := Extract(s, t);
      HashesMultiset(k, s[..n], p + q);
      assert Hashes(k, s)[..n] == Hashes(k, s[..n]);
      assert Hashes(k, t) == Hashes(k, p) + [HashAccess(k, x)] + Hashes(k, q);
      assert Hashes(k, p + q) == Hashes(k, p) + Hashes(k, q);
      MultisetSnoc(Hashes(k, s));
      MultisetMoves(Hashes(k, p), HashAccess(k, x), Hashes(k, q));
    }
  }

  /** The equation checked on the four products. */
  ghost predicate ProductCheck(k: Keys, mem: seq<F>, taken: seq<Access>, audit: seq<nat>)
    requires |audit| == |mem|
  {
    Mul(Prod(Hashes(k, Init(mem))), Prod(Hashes(k, Writes(taken))))
    == Mul(Prod(Hashes(k, taken)), Prod(Hashes(k, Audit(mem, audit))))
  }

  lemma ProductOfBoth(k: Keys, s: seq<Access>, t: seq<Access>)
    ensures Mul(Prod(Hashes(k, s)), Prod(Hashes(k, t))) == Prod(Hashes(k, s + t))
  {
    hide Mul, Prod, Hash;
    ProdAppend(Hashes(k, s), Hashes(k, t));
    assert Hashes(k, s + t) == Hashes(k, s) + Hashes(k, t);
  }

  /** A balanced memory passes the product check, whatever the challenges. */
  lemma BalancedPasses(k: Keys, mem: seq<F>, taken: seq<Access>, audit: seq<nat>)
    requires |audit| == |mem| && Balanced(mem, taken, audit)
    ensures ProductCheck(k, mem, taken, audit)
  {
    hide Prod, Hashes;
    var s, t := Init(mem) + Writes(taken), taken + Audit(mem, audit);
    ProductOfBoth(k, Init(mem), Writes(taken));
    ProductOfBoth(k, taken, Audit(mem, audit));
    HashesMultiset(k, s, t);
    ProdPermutes(Hashes(k, s), Hashes(k, t));
  }

  // ---- The product check, over many points, determines the multiset ----

  /** The product of the differences a[i] - t. */
  ghost function Differences(a: seq<F>, t: F): F {
    if a == [] then 1 else Mul(Differences(a[..|a| - 1], t), Sub(a[|a| - 1], t))
  }

  ghost function DifferencePoly(a: seq<F>): (c: seq<F>)
    ensures |c| == |a| + 1
  {
    if a == [] then [1]
    else TimesLine(a[|a| - 1], Sub(a[|a| - 1], 1), DifferencePoly(a[..|a| - 1]))
  }

  lemma LineDescends(x: F, t: F)
    ensures Interp(x, Sub(x, 1), t) == Sub(x, t)
  {
    SubSwaps(x, 1, x, 0);
    SubZero(x);
    SubIsZero(x, x);
    SubZero(1);
    DistributesSub(t, 0, 1);
    MulZero(t);
    MulOne(t);
    AddNegated(x, t);
  }

  lemma {:induction false} DifferencePolyEval(a: seq<F>, t: F)
    ensures Eval(DifferencePoly(a), t) == Differences(a, t)
  {
    if a == [] {
      EvalOne(1, t);
    } else {
      var n := |a| - 1;
      DifferencePolyEval(a[..n], t);
      EvalTimesLine(a[n], Sub(a[n], 1), DifferencePoly(a[..n]), t);
      LineDescends(a[n], t);
      MulCommutes(Sub(a[n], t), Differences(a[..n], t));
    }
  }

  /** Two products of n differences that agree at more than n points agree everywhere. */
  lemma DifferencesAgree(a: seq<F>, b: seq<F>, S: set<F>, x: F)
    requires |a| == |b| < |S|
    requires forall t :: t in S ==> Differences(a, t) == Differences(b, t)
    ensures Differences(a, x) == Differences(b, x)
  {
    if Differences(a, x) != Differences(b, x) {
      var c, d := DifferencePoly(a), DifferencePoly(b);
      DifferencePolyEval(a, x);
      DifferencePolyEval(b, x);
      forall t | t in S
        ensures Eval(c, t) == Eval(d, t)
      {
        DifferencePolyEval(a, t);
        DifferencePolyEval(b, t);
      }
      FewAgreements(c, d, x, S);
    }
  }

  lemma {:induction false} RootAmong(b: seq<F>, x: F) returns (j: int)
    requires Differences(b, x) == 0
    ensures 0 <= j < |b| && b[j] == x
  {
    if b != [] {
      var n := |b| - 1;
      NoZeroDivisors(Differences(b[..n], x), Sub(b[n], x));
      SubIsZero(b[n], x);
      if b[n] == x {
        j := n;
      } else {
        j := RootAmong(b[..n], x);
      }
    }
  }

  lemma {:induction false} DifferencesMove(p: seq<F>, x: F, q: seq<F>, t: F)
    ensures Differences(p + [x] + q, t) == Mul(Differences(p + q, t), Sub(x, t))
    decreases |q|
  {
    if q == [] {
      assert p + [x] + q == p + [x] && p + q == p && (p + [x])[..|p|] == p;
    } else {
      var n, s := |q| - 1, p + [x] + q;
      var y := q[n];
      assert s[..|s| - 1] == p + [x] + q[..n] && (p + q)[..|p + q| - 1] == p + q[..n];
      DifferencesMove(p, x, q[..n], t);
      var d := Differences(p + q[..n], t);
      MulAssociates(d, Sub(x, t), Sub(y, t));
      MulCommutes(Sub(x, t), Sub(y, t));
      MulAssociates(d, Sub(y, t), Sub(x, t));
    }
  }

  lemma Cancel(a: F, b: F, c: F)
    requires c != 0 && Mul(a, c) == Mul(b, c)
    ensures a == b
  {
    MulCommutes(a, c);
    MulCommutes(b, c);
    DistributesSub(c, a, b);
    SubIsZero(Mul(c, a), Mul(c, b));
    NoZeroDivisors(c, Sub(a, b));
    SubIsZero(a, b);
  }

  /** The last root of one product is a root of the other. */
  lemma SharedRoot(a: seq<F>, b: seq<F>, S: set<F>) returns (p: seq<F>, q: seq<F>)
    requires a != [] && |a| == |b| < |S|
    requires forall t :: t in S ==> Differences(a, t) == Differences(b, t)
    ensures b == p + [a[|a| - 1]] + q
  {
    var x := a[|a| - 1];
    SubIsZero(x, x);
    MulZero(Differences(a[..|a| - 1], x));
    DifferencesAgree(a, b, S, x);
    var j := RootAmong(b, x);
    p, q := b[..j], b[j + 1..];
  }

  /** Equal products at more than n points force equal multisets of n hashes. */
  lemma {:induction false} ProductsDetermineMultiset(a: seq<F>, b: seq<F>, S: set<F>)
    requires |a| == |b| < |S|
    requires forall t :: t in S ==> Differences(a, t) == Differences(b, t)
    ensures multiset(a) == multiset(b)
    decreases |a|
  {
    if a != [] {
      var n := |a| - 1;
      var x := a[n];
      var p, q := SharedRoot(a, b, S);
      var S' := S - {x};
      assert |S'| >= |S| - 1;
      forall t | t in S'
        ensures Differences(a[..n], t) == Differences(p + q, t)
      {
        DifferencesMove(p, x, q, t);
        SubIsZero(x, t);
        Cancel(Differences(a[..n], t), Differences(p + q, t), Sub(x, t));
      }
      ProductsDetermineMultiset(a[..n], p + q, S');
      MultisetSnoc(a);
      MultisetMoves(p, x, q);
    }
  }

  /** The hash without the product point. */
  function Fingerprint(base: F, x: Access): F {
    Add(Add(Mul(Of(x.ts), Mul(base, base)), Mul(x.val, base)), Of(x.addr))
  }

  function Fingerprints(base: F, s: seq<Access>): (h: seq<F>)
    ensures |h| == |s|
  {
    seq<F>(|s|, i requires 0 <= i < |s| => Fingerprint(base, s[i]))
  }

  lemma {:induction false} HashesAreDifferences(k: Keys, s: seq<Access>)
    ensures Prod(Hashes(k, s)) == Differences(Fingerprints(k.base, s), k.point)
  {
    hide Mul, Sub, Add;
    if s != [] {
      var n := |s| - 1;
      HashesAreDifferences(k, s[..n]);
      assert Hashes(k, s)[..n] == Hashes(k, s[..n]);
      assert Fingerprints(k.base, s)[..n] == Fingerprints(k.base, s[..n]);
    }
  }

  /** Soundness of the product check: for a fixed base, if it passes at more points than there are
      accesses, then the fingerprints of what was put in and what was taken out are the same multiset. */
  lemma ProductCheckSound(base: F, mem: seq<F>, taken: seq<Access>, audit: seq<nat>, S: set<F>)
    requires |audit| == |mem| && |S| > |mem| + |taken|
    requires forall t :: t in S ==> ProductCheck(Keys(base, t), mem, taken, audit)
    ensures multiset(Fingerprints(base, Init(mem) + Writes(taken)))
         == multiset(Fingerprints(base, taken + Audit(mem, audit)))
  {
    hide Differences, Prod, Hashes;
    var s, u := Init(mem) + Writes(taken), taken + Audit(mem, audit);
    var a, b := Fingerprints(base, s), Fingerprints(base, u);
    forall t | t in S
      ensures Differences(a, t) == Differences(b, t)
    {
      var k := Keys(base, t);
      assert ProductCheck(k, mem, taken, audit);
      ProductOfBoth(k, Init(mem), Writes(taken));
      ProductOfBoth(k, taken, Audit(mem, audit));
      HashesAreDifferences(k, s);
      HashesAreDifferences(k, u);
    }
    ProductsDetermineMultiset(a, b, S);
  }

  /** If no two of the accesses involved collide under the base, the memory itself is balanced, and so
      every value read is right. */
  lemma ProductCheckBalances(base: F, mem: seq<F>, taken: seq<Access>, audit: seq<nat>, S: set<F>)
    requires |audit| == |mem| && |S| > |mem| + |taken|
    requires forall t :: t in S ==> ProductCheck(Keys(base, t), mem, taken, audit)
    requires var all := Init(mem) + Writes(taken) + taken + Audit(mem, audit);
             forall x, y :: x in all && y in all && Fingerprint(base, x) == Fingerprint(base, y) ==> x == y
    ensures Balanced(mem, taken, audit)
  {
    ProductCheckSound(base, mem, taken, audit, S);
    var s, u := Init(mem) + Writes(taken), taken + Audit(mem, audit);
    hide Fingerprint;
    InjectiveMultiset(base, s, u);
  }

  lemma {:induction false} InjectiveMultiset(base: F, s: seq<Access>, u: seq<Access>)
    requires multiset(Fingerprints(base, s)) == multiset(Fingerprints(base, u))
    requires forall x, y :: x in s && y in u && Fingerprint(base, x) == Fingerprint(base, y) ==> x == y
    ensures multiset(s) == multiset(u)
    decreases |s|
  {
    hide Fingerprint;
    var hs, hu := Fingerprints(base, s), Fingerprints(base, u);
    if s == [] {
      EmptyMultiset(hu);
    } else {
      var n := |s| - 1;
      var x := s[n];
      assert hs[n] in multiset(hs) && hs[n] in multiset(hu);
      var j :| 0 <= j < |u| && hu[j] == hs[n];
      assert u[j] in u && x in s;
      var p, q := u[..j], u[j + 1..];
      assert u == p + [x] + q;
      RestOfFingerprints(base, s, p, q);
      InjectiveMultiset(base, s[..n], p + q);
      MultisetSnoc(s);
      MultisetMoves(p, x, q);
    }
  }

  lemma RestOfFingerprints(base: F, s: seq<Access>, p: seq<Access>, q: seq<Access>)
    requires s != []
    requires multiset(Fingerprints(base, s)) == multiset(Fingerprints(base, p + [s[|s| - 1]] + q))
    ensures multiset(Fingerprints(base, s[..|s| - 1])) == multiset(Fingerprints(base, p + q))
  {
    hide Fingerprint;
    var n := |s| - 1;
    var x, hs := s[n], Fingerprints(base, s);
    var f, hp, hq := Fingerprint(base, x), Fingerprints(base, p), Fingerprints(base, q);
    assert Fingerprints(base, p + [x] + q) == hp + [f] + hq;
    assert Fingerprints(base, p + q) == hp + hq;
    assert hs[..n] == Fingerprints(base, s[..n]);
    MultisetSnoc(hs);
    MultisetMoves(hp, f, hq);
    assert multiset(hs[..n]) == multiset(hs) - multiset{f};
    assert multiset(hp + hq) == multiset(hp + [f] + hq) - multiset{f};
  }

  /** The fingerprint as a polynomial in the base. */
  ghost function FingerprintPoly(x: Access): (c: seq<F>)
    ensures |c| == 3
  {
    [Of(x.addr), x.val, Of(x.ts)]
  }

  lemma FingerprintEval(x: Access, g: F)
    ensures Eval(FingerprintPoly(x), g) == Fingerprint(g, x)
  {
    var a, v, s := Of(x.addr), x.val, Of(x.ts);
    Eval3([a, v, s], g);
    HornerForm(a, v, s, g);
  }

  /** The hash is a polynomial in the base, with the address as its constant and the timestamp as its leading coefficient,
      less the point. */
  lemma HashIsPolynomial(k: Keys, addr: F, val: F, ts: F)
    ensures Hash(k, addr, val, ts) == Sub(Eval([addr, val, ts], k.base), k.point)
  {
    hide Mul, Add, Sub;
    Eval3([addr, val, ts], k.base);
    HornerForm(addr, val, ts, k.base);
  }

  lemma HornerForm(a: F, v: F, s: F, g: F)
    ensures Add(a, Mul(g, Add(v, Mul(g, s)))) == Add(Add(Mul(s, Mul(g, g)), Mul(v, g)), a)
  {
    DistributesAdd(g, v, Mul(g, s));
    MulAssociates(g, g, s);
    MulCommutes(Mul(g, g), s);
    MulCommutes(g, v);
    AddCommutes(Mul(v, g), Mul(s, Mul(g, g)));
    AddCommutes(a, Add(Mul(s, Mul(g, g)), Mul(v, g)));
  }

  /** Two accesses that differ as triples of field elements collide for at most two bases. */
  lemma FewCollisions(x: Access, y: Access, S: set<F>)
    requires Of(x.addr) != Of(y.addr) || x.val != y.val || Of(x.ts) != Of(y.ts)
    requires forall g :: g in S ==> Fingerprint(g, x) == Fingerprint(g, y)
    ensures |S| <= 2
  {
    hide Fingerprint, Eval;
    var c, d := FingerprintPoly(x), FingerprintPoly(y);
    forall g: F
      ensures Eval(c, g) == Fingerprint(g, x) && Eval(d, g) == Fingerprint(g, y)
    {
      FingerprintEval(x, g);
      FingerprintEval(y, g);
    }
    if forall i: F :: 0 <= i < 3 ==> Eval(c, i) == Eval(d, i) {
      var values := [Eval(c, 0), Eval(c, 1), Eval(c, 2)];
      Interpolates3(c, values);
      Interpolates3(d, values);
    } else {
      var i: F :| 0 <= i < 3 && Eval(c, i) != Eval(d, i);
      FewAgreements(c, d, i, S);
    }
  }

  // ---- How many keys pass on an unbalanced memory ----

  ghost predicate Collides(base: F, x: Access, y: Access) {
    x != y && Fingerprint(base, x) == Fingerprint(base, y)
  }

  ghost predicate CollidesWithOne(base: F, x: Access, u: seq<Access>) {
    exists j :: 0 <= j < |u| && Collides(base, x, u[j])
  }

  ghost predicate CollidesWithin(base: F, s: seq<Access>, u: seq<Access>) {
    exists i :: 0 <= i < |s| && CollidesWithOne(base, s[i], u)
  }

  /** Addresses and timestamps below the modulus, so that different accesses are different triples of field elements. */
  ghost predicate FitsField(s: seq<Access>) {
    forall i :: 0 <= i < |s| ==> s[i].addr < K.p && s[i].ts < K.p
  }

  lemma DifferentTriples(x: Access, y: Access)
    requires x != y && x.addr < K.p && x.ts < K.p && y.addr < K.p && y.ts < K.p
    ensures Of(x.addr) != Of(y.addr) || x.val != y.val || Of(x.ts) != Of(y.ts)
  {
    OfRepresentative(x.addr);
    OfRepresentative(y.addr);
    OfRepresentative(x.ts);
    OfRepresentative(y.ts);
  }

  lemma SplitSize(B: set<F>, C: set<F>)
    requires C <= B
    ensures |B| == |C| + |B - C|
  {
    assert B == C + (B - C);
  }

  /** One access collides with one of u for at most 2 * |u| bases. */
  lemma {:induction false} FewBasesForOne(x: Access, u: seq<Access>, B: set<F>)
    requires FitsField([x]) && FitsField(u)
    requires forall b :: b in B ==> CollidesWithOne(b, x, u)
    ensures |B| <= 2 * |u|
    decreases |u|
  {
    hide Fingerprint;
    assert x == [x][0];
    if u == [] {
      assert B == {};
    } else {
      var n := |u| - 1;
      var C := set b | b in B && Collides(b, x, u[n]);
      if C != {} {
        DifferentTriples(x, u[n]);
        FewCollisions(x, u[n], C);
      }
      forall b | b in B - C
        ensures CollidesWithOne(b, x, u[..n])
      {
        var j :| 0 <= j < |u| && Collides(b, x, u[j]);
        assert j < n && u[..n][j] == u[j];
      }
      FewBasesForOne(x, u[..n], B - C);
      SplitSize(B, C);
    }
  }

  lemma Grow(n: nat, k: nat)
    ensures 2 * (n * k) + 2 * k == 2 * ((n + 1) * k)
  {
  }

  /** Accesses of s and u collide for at most 2 * |s| * |u| bases. */
  lemma {:induction false} FewCollidingBases(s: seq<Access>, u: seq<Access>, B: set<F>)
    requires FitsField(s) && FitsField(u)
    requires forall b :: b in B ==> CollidesWithin(b, s, u)
    ensures |B| <= 2 * (|s| * |u|)
    decreases |s|
  {
    hide CollidesWithOne;
    if s == [] {
      assert B == {};
    } else {
      var n := |s| - 1;
      var C := set b | b in B && CollidesWithOne(b, s[n], u);
      FewBasesForOne(s[n], u, C);
      forall b | b in B - C
        ensures CollidesWithin(b, s[..n], u)
      {
        var i :| 0 <= i < |s| && CollidesWithOne(b, s[i], u);
        assert i < n && s[..n][i] == s[i];
      }
      FewCollidingBases(s[..n], u, B - C);
      SplitSize(B, C);
      Grow(n, |u|);
    }
  }

  /** All the accesses that the product check multiplies. */
  ghost function Involved(mem: seq<F>, taken: seq<Access>, audit: seq<nat>): (s: seq<Access>)
    requires |audit| == |mem|
    ensures |s| == 2 * (|mem| + |taken|)
  {
    Init(mem) + Writes(taken) + taken + Audit(mem, audit)
  }

  ghost predicate PassesAt(base: F, S: set<F>, mem: seq<F>, taken: seq<Access>, audit: seq<nat>)
    requires |audit| == |mem|
  {
    forall t :: t in S ==> ProductCheck(Keys(base, t), mem, taken, audit)
  }

  /** With this base the product check passes at more points than there are accesses. */
  ghost predicate PassesOften(base: F, mem: seq<F>, taken: seq<Access>, audit: seq<nat>)
    requires |audit| == |mem|
  {
    exists S: set<F> :: |S| > |mem| + |taken| && PassesAt(base, S, mem, taken, audit)
  }

  /** On an unbalanced memory, all but 2 * (2 * (|mem| + |taken|))^2 bases pass at no more than |mem| + |taken| points. */
  lemma FewUnluckyBases(mem: seq<F>, taken: seq<Access>, audit: seq<nat>, B: set<F>)
    requires |audit| == |mem| && !Balanced(mem, taken, audit) && FitsField(Involved(mem, taken, audit))
    requires forall b :: b in B ==> PassesOften(b, mem, taken, audit)
    ensures |B| <= 2 * (2 * (|mem| + |taken|) * (2 * (|mem| + |taken|)))
  {
    hide Balanced, ProductCheck, Fingerprint, FitsField;
    var all := Involved(mem, taken, audit);
    forall b | b in B
      ensures CollidesWithin(b, all, all)
    {
      var S: set<F> :| |S| > |mem| + |taken| && PassesAt(b, S, mem, taken, audit);
      if !CollidesWithin(b, all, all) {
        forall x, y | x in all && y in all && Fingerprint(b, x) == Fingerprint(b, y)
          ensures x == y
        {
          var i, j :| 0 <= i < |all| && all[i] == x && 0 <= j < |all| && all[j] == y;
          assert !CollidesWithOne(b, all[i], all) && !Collides(b, all[i], all[j]);
        }
        ProductCheckBalances(b, mem, taken, audit, S);
      }
    }
    FewCollidingBases(all, all, B);
  }
}
