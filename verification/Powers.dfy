/** Powers of two and logarithms on table sizes (spartan/src/math.rs). */
module Powers {

  function Pow2(n: nat): (p: nat)
    ensures p >= 1
  {
    if n == 0 then 1 else 2 * Pow2(n - 1)
  }

  ghost predicate IsPow2(m: nat) {
    exists n: nat :: m == Pow2(n)
  }

  lemma HalfPower(n: nat)
    requires n >= 1
    ensures Pow2(n) == 2 * Pow2(n - 1)
  {
  }

  lemma {:induction false} Pow2Add(a: nat, b: nat)
    ensures Pow2(a + b) == Pow2(a) * Pow2(b)
  {
    if a > 0 {
      Pow2Add(a - 1, b);
    }
  }

  lemma {:induction false} Pow2Monotone(a: nat, b: nat)
    requires a < b
    ensures 2 * Pow2(a) <= Pow2(b)
  {
    if a + 1 < b {
      Pow2Monotone(a, b - 1);
    }
  }

  lemma Pow2Injective(a: nat, b: nat)
    requires Pow2(a) == Pow2(b)
    ensures a == b
  {
    if a < b {
      Pow2Monotone(a, b);
    } else if b < a {
      Pow2Monotone(b, a);
    }
  }

  /** The least power of two that is at least m; 1 for m = 0, as in Rust. */
  function NextPow2From(m: nat, p: nat): (r: nat)
    requires p >= 1
    decreases m - p
  {
    if m <= p then p else NextPow2From(m, 2 * p)
  }

  function NextPow2(m: nat): nat {
    NextPow2From(m, 1)
  }

  /** The exponent of the least power of two that is at least m (the source's log_2 for m >= 1). */
  function Log2From(m: nat, p: nat): nat
    requires p >= 1
    decreases m - p
  {
    if m <= p then 0 else 1 + Log2From(m, 2 * p)
  }

  function Log2(m: nat): nat {
    Log2From(m, 1)
  }

  lemma {:induction false} NextFrom(m: nat, k: nat)
    ensures NextPow2From(m, Pow2(k)) == Pow2(k + Log2From(m, Pow2(k)))
    ensures m <= NextPow2From(m, Pow2(k))
    ensures Log2From(m, Pow2(k)) > 0 ==> Pow2(k + Log2From(m, Pow2(k)) - 1) < m
    decreases m - Pow2(k)
  {
    if m > Pow2(k) {
      NextFrom(m, k + 1);
    }
  }

  /** NextPow2(m) is the power 2^Log2(m), it is at least m, and the power below it is not. */
  lemma NextPow2IsLeast(m: nat)
    ensures NextPow2(m) == Pow2(Log2(m))
    ensures m <= NextPow2(m)
    ensures Log2(m) > 0 ==> Pow2(Log2(m) - 1) < m
  {
    NextFrom(m, 0);
  }

  lemma Log2OfPow2(n: nat)
    ensures Log2(Pow2(n)) == n
    ensures NextPow2(Pow2(n)) == Pow2(n)
  {
    NextPow2IsLeast(Pow2(n));
    var k := Log2(Pow2(n));
    if k < n {
      Pow2Monotone(k, n);
    } else if k > n {
      if k - 1 > n {
        Pow2Monotone(n, k - 1);
      }
    }
  }

  /** Any k between the bounds of NextPow2IsLeast is the logarithm. */
  lemma Log2Unique(m: nat, k: nat)
    requires m <= Pow2(k)
    requires k > 0 ==> Pow2(k - 1) < m
    ensures Log2(m) == k
  {
    NextPow2IsLeast(m);
    var l := Log2(m);
    if l < k {
      if l < k - 1 {
        Pow2Monotone(l, k - 1);
      }
    } else if k < l {
      if k < l - 1 {
        Pow2Monotone(k, l - 1);
      }
    }
  }

  /** No smaller power of two will do. */
  lemma NoSmallerPower(m: nat, k: nat)
    requires m <= Pow2(k)
    ensures NextPow2(m) <= Pow2(k)
  {
    NextPow2IsLeast(m);
    if k < Log2(m) {
      if k < Log2(m) - 1 {
        Pow2Monotone(k, Log2(m) - 1);
      }
    } else if k > Log2(m) {
      Pow2Monotone(Log2(m), k);
    }
  }
}
