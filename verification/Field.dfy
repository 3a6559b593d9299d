/** The scalar field of the proof system.

    The source is generic in `F: PrimeField`. Here the field is the constant `K`, which is given no
    value: it stands for any prime field of characteristic above 3, on the representatives 0..p-1.
    Every lemma of the project therefore holds for every such field. */
module Field {

  predicate Divides(d: int, n: int)
    requires d != 0
  {
    n % d == 0
  }

  ghost predicate Prime(p: int) {
    p > 1 && forall d :: 1 < d < p ==> !Divides(d, p)
  }

  datatype Operations = Operations(
    p: int,
    reduce: int -> int,
    add: (int, int) -> int,
    sub: (int, int) -> int,
    mul: (int, int) -> int
  )

  /** Names the points at which the laws of `IsPrimeField` are to be looked up; without it every
      field term would unfold into a remainder by an unknown modulus. */
  ghost predicate At(x: int, y: int) { true }

  ghost predicate IsPrimeField(k: Operations) {
    && k.p > 3
    && Prime(k.p)
    && forall x, y {:trigger At(x, y)} ::
      && k.reduce(x) == x % k.p
      && k.add(x, y) == (x + y) % k.p
      && k.sub(x, y) == (x - y) % k.p
      && k.mul(x, y) == (x * y) % k.p
  }

  lemma FiveIsPrime()
    ensures Prime(5)
  {
  }

  type PrimeField = k: Operations | IsPrimeField(k)
    witness (FiveIsPrime();
             Operations(5, x => x % 5, (x, y) => (x + y) % 5, (x, y) => (x - y) % 5, (x, y) => (x * y) % 5))

  const K: PrimeField

  type F = x: int | 0 <= x < K.p witness 0

  /** The field element an integer stands for (`F::from`). */
  function Of(x: int): F {
    assert At(x, x);
    K.reduce(x)
  }

  function Add(a: F, b: F): F {
    assert At(a, b);
    K.add(a, b)
  }

  function Sub(a: F, b: F): F {
    assert At(a, b);
    K.sub(a, b)
  }

  function Mul(a: F, b: F): F {
    assert At(a, b);
    K.mul(a, b)
  }

  // ---- The map from the integers onto the field keeps the operations ----

  lemma AtLeastOneMultiple(p: int, q: int)
    requires p > 0 && q > 0
    ensures q * p >= p
  {
  }

  lemma SmallMultiple(p: int, q: int, d: int)
    requires p > 0 && -p < d < p && d == q * p
    ensures d == 0
  {
    if q > 0 {
      AtLeastOneMultiple(p, q);
    } else if q < 0 {
      AtLeastOneMultiple(p, -q);
    }
  }

  lemma Quotient(x: int)
    ensures x == K.p * (x / K.p) + Of(x)
  {
    assert At(x, x);
  }

  lemma Congruent(x: int, y: int, k: int)
    requires x == y + k * K.p
    ensures Of(x) == Of(y)
  {
    Quotient(x);
    Quotient(y);
    var q := y / K.p + k - x / K.p;
    assert Of(x) - Of(y) == q * K.p;
    SmallMultiple(K.p, q, Of(x) - Of(y));
  }

  lemma OfRepresentative(a: F)
    ensures Of(a) == a
  {
    hide Of;
    Quotient(a);
    SmallMultiple(K.p, a / K.p, a - Of(a));
  }

  lemma OperationsAreOf(a: F, b: F)
    ensures Add(a, b) == Of(a + b)
    ensures Sub(a, b) == Of(a - b)
    ensures Mul(a, b) == Of(a * b)
  {
    assert At(a, b) && At(a + b, a + b) && At(a - b, a - b) && At(a * b, a * b);
  }

  lemma OfAdd(x: int, y: int)
    ensures Add(Of(x), Of(y)) == Of(x + y)
  {
    Quotient(x);
    Quotient(y);
    OperationsAreOf(Of(x), Of(y));
    Congruent(Of(x) + Of(y), x + y, -(x / K.p) - y / K.p);
  }

  lemma OfSub(x: int, y: int)
    ensures Sub(Of(x), Of(y)) == Of(x - y)
  {
    Quotient(x);
    Quotient(y);
    OperationsAreOf(Of(x), Of(y));
    Congruent(Of(x) - Of(y), x - y, y / K.p - x / K.p);
  }

  lemma ExpandProduct(p: int, a: int, b: int, u: int, v: int)
    ensures u * v == (p * a + u) * (p * b + v) + (-a * v - b * u - a * b * p) * p
  {
  }

  lemma OfMul(x: int, y: int)
    ensures Mul(Of(x), Of(y)) == Of(x * y)
  {
    var a, b, u, v := x / K.p, y / K.p, Of(x), Of(y);
    Quotient(x);
    Quotient(y);
    OperationsAreOf(u, v);
    ExpandProduct(K.p, a, b, u, v);
    Congruent(u * v, x * y, -a * v - b * u - a * b * K.p);
  }

  lemma Representatives(a: F, b: F := 0, c: F := 0, d: F := 0)
    ensures Of(a) == a && Of(b) == b && Of(c) == c && Of(d) == d && Of(0) == 0 && Of(1) == 1
  {
    OfRepresentative(a);
    OfRepresentative(b);
    OfRepresentative(c);
    OfRepresentative(d);
    OfRepresentative(0);
    OfRepresentative(1);
  }

  // ---- Field laws. Each is an identity of integers, carried over one operation at a time ----

  lemma AddZero(a: F)
    ensures Add(a, 0) == a && Add(0, a) == a
  {
    Representatives(a);
    OfAdd(a, 0);
    OfAdd(0, a);
  }

  lemma MulOne(a: F)
    ensures Mul(a, 1) == a && Mul(1, a) == a
  {
    Representatives(a);
    OfMul(a, 1);
    OfMul(1, a);
  }

  lemma MulZero(a: F)
    ensures Mul(a, 0) == 0 && Mul(0, a) == 0
  {
    Representatives(a);
    OfMul(a, 0);
    OfMul(0, a);
  }

  lemma AddCommutes(a: F, b: F)
    ensures Add(a, b) == Add(b, a)
  {
    Representatives(a, b);
    OfAdd(a, b);
    OfAdd(b, a);
  }

  lemma AddAssociates(a: F, b: F, c: F)
    ensures Add(Add(a, b), c) == Add(a, Add(b, c))
  {
    Representatives(a, b, c);
    OfAdd(a, b);
    OfAdd(a + b, c);
    OfAdd(b, c);
    OfAdd(a, b + c);
  }

  lemma MulCommutes(a: F, b: F)
    ensures Mul(a, b) == Mul(b, a)
  {
    Representatives(a, b);
    OfMul(a, b);
    OfMul(b, a);
  }

  lemma MulAssociates(a: F, b: F, c: F)
    ensures Mul(Mul(a, b), c) == Mul(a, Mul(b, c))
  {
    assert (a * b) * c == a * (b * c);
    Representatives(a, b, c);
    OfMul(a, b);
    OfMul(a * b, c);
    OfMul(b, c);
    OfMul(a, b * c);
  }

  lemma DistributesAdd(a: F, b: F, c: F)
    ensures Mul(a, Add(b, c)) == Add(Mul(a, b), Mul(a, c))
  {
    assert a * (b + c) == a * b + a * c;
    Representatives(a, b, c);
    OfAdd(b, c);
    OfMul(a, b + c);
    OfMul(a, b);
    OfMul(a, c);
    OfAdd(a * b, a * c);
  }

  lemma DistributesSub(a: F, b: F, c: F)
    ensures Mul(a, Sub(b, c)) == Sub(Mul(a, b), Mul(a, c))
  {
    assert a * (b - c) == a * b - a * c;
    Representatives(a, b, c);
    OfSub(b, c);
    OfMul(a, b - c);
    OfMul(a, b);
    OfMul(a, c);
    OfSub(a * b, a * c);
  }

  /** (a + b) + (c + d) = (a + c) + (b + d) */
  lemma AddExchanges(a: F, b: F, c: F, d: F)
    ensures Add(Add(a, b), Add(c, d)) == Add(Add(a, c), Add(b, d))
  {
    AddAssociates(a, b, Add(c, d));
    AddAssociates(b, c, d);
    AddCommutes(b, c);
    AddAssociates(c, b, d);
    AddAssociates(a, c, Add(b, d));
  }

  lemma SubZero(a: F)
    ensures Sub(a, 0) == a
  {
    Representatives(a);
    OfSub(a, 0);
  }

  lemma AddSub(a: F, b: F)
    ensures Add(a, Sub(b, a)) == b
  {
    Representatives(a, b);
    OfSub(b, a);
    OfAdd(a, b - a);
  }

  lemma SubAdd(a: F, b: F, c: F)
    ensures Sub(Sub(a, b), c) == Sub(a, Add(b, c))
  {
    Representatives(a, b, c);
    OfSub(a, b);
    OfSub(a - b, c);
    OfAdd(b, c);
    OfSub(a, b + c);
  }

  /** (a - b) - (c - d) = (a - c) - (b - d) */
  lemma SubSwaps(a: F, b: F, c: F, d: F)
    ensures Sub(Sub(a, b), Sub(c, d)) == Sub(Sub(a, c), Sub(b, d))
  {
    Representatives(a, b, c, d);
    OfSub(a, b);
    OfSub(c, d);
    OfSub(a - b, c - d);
    OfSub(a, c);
    OfSub(b, d);
    OfSub(a - c, b - d);
  }

  /** (a - b) + (c - d) = (a + c) - (b + d) */
  lemma SubOfAdds(a: F, b: F, c: F, d: F)
    ensures Add(Sub(a, b), Sub(c, d)) == Sub(Add(a, c), Add(b, d))
  {
    Representatives(a, b, c, d);
    OfSub(a, b);
    OfSub(c, d);
    OfAdd(a - b, c - d);
    OfAdd(a, c);
    OfAdd(b, d);
    OfSub(a + c, b + d);
  }

  /** (c + x) - (c + y) = x - y */
  lemma SubCancels(c: F, x: F, y: F)
    ensures Sub(Add(c, x), Add(c, y)) == Sub(x, y)
  {
    SubOfAdds(c, c, x, y);
    SubIsZero(c, c);
    AddZero(Sub(x, y));
  }

  lemma SubOfSum(a: F, b: F)
    ensures Sub(Add(a, b), a) == b
  {
    SubCancels(a, b, 0);
    AddZero(a);
    SubZero(b);
  }

  lemma AddThenSub(a: F, b: F)
    ensures Sub(Add(a, b), b) == a
  {
    AddCommutes(a, b);
    SubOfSum(b, a);
  }

  lemma SubThenAdd(a: F, b: F)
    ensures Add(Sub(a, b), b) == a
  {
    AddCommutes(Sub(a, b), b);
    AddSub(b, a);
  }

  lemma AddNegated(a: F, b: F)
    ensures Add(a, Sub(0, b)) == Sub(a, b)
  {
    SubOfAdds(a, 0, 0, b);
    SubZero(a);
    AddZero(a);
    AddZero(b);
  }

  lemma SubIsZero(a: F, b: F)
    ensures Sub(a, b) == 0 <==> a == b
  {
    OperationsAreOf(a, b);
    if Sub(a, b) == 0 {
      Quotient(a - b);
      SmallMultiple(K.p, (a - b) / K.p, a - b);
    } else if a == b {
      OfRepresentative(0);
    }
  }

  /** A prime field has no zero divisors, by Euclid's descent on b. */
  lemma {:induction false} NoZeroDivisors(a: F, b: F)
    requires Mul(a, b) == 0
    ensures a == 0 || b == 0
    decreases b
  {
    if b == 1 {
      MulOne(a);
    } else if b != 0 {
      var q, r: F := K.p / b, K.p % b;
      assert !Divides(b, K.p);
      Remainder(a, b, q, r);
      NoZeroDivisors(a, r);
    }
  }

  lemma MultipleOfModulus(a: int, b: int, p: int, q: int, m: int)
    requires a * b == p * m
    ensures a * (p - b * q) == (a - q * m) * p
  {
    calc {
      a * (p - b * q);
      a * p - (a * b) * q;
      a * p - (p * m) * q;
      (a - q * m) * p;
    }
  }

  lemma Remainder(a: F, b: F, q: int, r: F)
    requires Mul(a, b) == 0 && K.p == b * q + r
    ensures Mul(a, r) == 0
  {
    OperationsAreOf(a, b);
    OperationsAreOf(a, r);
    Quotient(a * b);
    var m := (a * b) / K.p;
    MultipleOfModulus(a, b, K.p, q, m);
    Congruent(a * r, 0, a - q * m);
    OfRepresentative(0);
  }

  // ---- The inverses of 2 and 6 used by interpolation ----

  const HALF: F := (K.p + 1) / 2

  const SIXTH: F := if K.p % 6 == 1 then (5 * K.p + 1) / 6 else (K.p + 1) / 6

  lemma CoprimeToSix()
    ensures K.p % 2 == 1
    ensures K.p % 6 == 1 || K.p % 6 == 5
  {
    assert !Divides(2, K.p) && !Divides(3, K.p);
    RemaindersBySix(K.p);
  }

  lemma RemaindersBySix(p: int)
    requires p % 2 != 0 && p % 3 != 0
    ensures p % 6 == 1 || p % 6 == 5
  {
    var q, r := p / 6, p % 6;
    if r == 3 {
      MultipleOf3(p, 2 * q + 1);
    } else if r != 1 && r != 5 {
      MultipleOf2(p, 3 * q + if r == 0 then 0 else if r == 2 then 1 else 2);
    }
  }

  lemma MultipleOf2(x: int, q: int)
    requires x == 2 * q
    ensures x % 2 == 0
  {
  }

  lemma MultipleOf3(x: int, q: int)
    requires x == 3 * q
    ensures x % 3 == 0
  {
  }

  /** HALF and SIXTH are `F::from(2).inverse()` and `F::from(6).inverse()`. */
  lemma Inverses()
    ensures Mul(Of(2), HALF) == 1
    ensures Mul(Of(6), SIXTH) == 1
    ensures HALF == Of(3 * SIXTH)
  {
    CoprimeToSix();
    Multiples();
    Representatives(HALF, SIXTH);
    OfMul(2, HALF);
    OfMul(6, SIXTH);
    Congruent(2 * HALF, 1, 1);
    if K.p % 6 == 1 {
      Congruent(6 * SIXTH, 1, 5);
      Congruent(3 * SIXTH, HALF, 2);
    } else {
      Congruent(6 * SIXTH, 1, 1);
      Congruent(3 * SIXTH, HALF, 0);
    }
  }

  lemma Multiples()
    ensures 2 * HALF == K.p + 1
    ensures K.p % 6 == 1 ==> 6 * SIXTH == 5 * K.p + 1
    ensures K.p % 6 != 1 ==> 6 * SIXTH == K.p + 1
  {
    CoprimeToSix();
    Rounding(K.p);
  }

  lemma Rounding(p: int)
    requires p % 6 == 1 || p % 6 == 5
    ensures 2 * ((p + 1) / 2) == p + 1
    ensures p % 6 == 1 ==> 6 * ((5 * p + 1) / 6) == 5 * p + 1
    ensures p % 6 == 5 ==> 6 * ((p + 1) / 6) == p + 1
  {
    var q := p / 6;
    if p % 6 == 1 {
      HalfIs(p + 1, 3 * q + 1);
      SixthIs(5 * p + 1, 5 * q + 1);
    } else {
      HalfIs(p + 1, 3 * q + 3);
      SixthIs(p + 1, q + 1);
    }
  }

  lemma HalfIs(x: int, q: int)
    requires x == 2 * q
    ensures x / 2 == q
  {
  }

  lemma SixthIs(x: int, q: int)
    requires x == 6 * q
    ensures x / 6 == q
  {
  }
}
