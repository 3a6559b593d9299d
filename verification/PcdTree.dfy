/** The proof tree of the parallel prover (cli/src/command/prove.rs): every second step is proved as a
    leaf, then neighbours are joined by proving the step between them, level by level. */
module PcdTree {
  import opened Powers

  /** A proof of the steps from i up to, not including, j (`PCDNode`). */
  datatype Node = Node(i: nat, j: nat)

  /** Joining two nodes proves the step after the left one (`prove_parent`). */
  function Parent(l: Node, r: Node): Node {
    Node(l.i, r.j)
  }

  /** The integer logarithm, rounded down (`ilog2`). */
  function Ilog2(x: nat): nat
    requires x >= 1
  {
    if x == 1 then 0 else 1 + Ilog2(x / 2)
  }

  lemma {:induction false} Ilog2Between(x: nat, n: nat)
    requires Pow2(n) <= x < Pow2(n + 1)
    ensures Ilog2(x) == n
  {
    if n > 0 {
      Ilog2Between(x / 2, n - 1);
    }
  }

  // ---- The number that on_step shows ----

  /** The level of the iter-th proof, counted from the leaves. */
  function LevelOf(numSteps: nat, iter: nat): int
    requires iter < numSteps
  {
    Ilog2(numSteps + 1) - 1 - Ilog2(numSteps - iter)
  }

  /** The step shown for the iter-th proof. */
  function OnStep(numSteps: nat, iter: nat): int
    requires iter < numSteps && LevelOf(numSteps, iter) >= 0
  {
    var b, a := Ilog2(numSteps + 1), LevelOf(numSteps, iter);
    Pow2(a + 1) * iter - (Pow2(a) - 1) * (Pow2(b + 1) - 1)
  }

  /** Position i of level a in in-order numbering. */
  function InOrder(a: nat, i: nat): nat {
    i * Pow2(a + 1) + Pow2(a) - 1
  }

  /** The number of proofs below level a of a tree of height b. */
  function Below(b: nat, a: nat): int
    requires a <= b
  {
    Pow2(b) - Pow2(b - a)
  }

  lemma LevelBounds(b: nat, a: nat, i: nat)
    requires a < b && i < Pow2(b - 1 - a)
    ensures 0 <= Below(b, a) && Below(b, a) + i < Pow2(b) - 1
    ensures LevelOf(Pow2(b) - 1, Below(b, a) + i) == a
  {
    var p := Pow2(b - 1 - a);
    HalfPower(b - a);
    if a > 0 {
      Pow2Monotone(b - a, b);
    }
    Ilog2Between(Pow2(b), b);
    Ilog2Between(2 * p - 1 - i, b - 1 - a);
  }

  /** p stands for 2^a, q for 2^(b-a), so that whole = p * q is 2^b. */
  lemma StepArithmetic(p: int, q: int, whole: int, i: int)
    requires whole == p * q
    ensures (2 * p) * (whole - q + i) - (p - 1) * (2 * whole - 1) == i * (2 * p) + p - 1
  {
    calc {
      (2 * p) * (whole - q + i) - (p - 1) * (2 * whole - 1);
      2 * (p * whole) - 2 * (p * q) + 2 * (p * i) - (2 * (p * whole) - p - 2 * whole + 1);
      2 * (p * i) + p - 1;
    }
  }

  /** The number shown for proof i of level a is its in-order position; nothing underflows. */
  lemma OnStepIsInOrder(b: nat, a: nat, i: nat)
    requires a < b && i < Pow2(b - 1 - a)
    ensures 0 <= Below(b, a) && Below(b, a) + i < Pow2(b) - 1
    ensures LevelOf(Pow2(b) - 1, Below(b, a) + i) == a
    ensures OnStep(Pow2(b) - 1, Below(b, a) + i) == InOrder(a, i)
  {
    hide *;
    LevelBounds(b, a, i);
    ShownAtLevel(b, a, i);
    HalfPower(a + 1);
    HalfPower(b + 1);
    Pow2Add(a, b - a);
    StepArithmetic(Pow2(a), Pow2(b - a), Pow2(b), i);
  }

  lemma ShownAtLevel(b: nat, a: nat, i: nat)
    requires a < b && 0 <= Below(b, a) && Below(b, a) + i < Pow2(b) - 1 && LevelOf(Pow2(b) - 1, Below(b, a) + i) == a
    ensures OnStep(Pow2(b) - 1, Below(b, a) + i)
         == Pow2(a + 1) * (Pow2(b) - Pow2(b - a) + i) - (Pow2(a) - 1) * (Pow2(b + 1) - 1)
    ensures InOrder(a, i) == i * Pow2(a + 1) + Pow2(a) - 1
  {
    hide LevelOf, Pow2, Ilog2;
    HalfPower(b + 1);
    Ilog2Between(Pow2(b), b);
  }

  /** The label "leaf" is shown exactly at the lowest level, and the last proof is the only one of the
      highest level. */
  lemma LabelsAreLevels(b: nat, a: nat, i: nat)
    requires a < b && i < Pow2(b - 1 - a)
    ensures Below(b, a) + i <= (Pow2(b) - 1) / 2 <==> a == 0
    ensures Below(b, a) + i == Pow2(b) - 2 <==> a == b - 1
  {
    HalfPower(b);
    if a > 1 {
      Pow2Monotone(b - a, b - 1);
    }
    HalfPower(b - a);
    if a < b - 1 {
      Pow2Monotone(0, b - 1 - a);
    }
  }

  // ---- In-order numbering is a bijection ----

  lemma Halving(a: nat, i: nat)
    requires a >= 1
    ensures InOrder(a, i) == 2 * InOrder(a - 1, i) + 1
  {
    hide Pow2;
    HalfPower(a);
    HalfPower(a + 1);
    Scaled(i, Pow2(a));
  }

  lemma Scaled(i: int, p: int)
    ensures i * (2 * p) == 2 * (i * p)
  {
  }

  /** Different places have different numbers. */
  lemma {:induction false} InOrderInjective(a: nat, i: nat, a': nat, i': nat)
    requires InOrder(a, i) == InOrder(a', i')
    ensures a == a' && i == i'
  {
    hide *;
    if a > 0 {
      Halving(a, i);
    } else {
      LowestLevel(i);
    }
    if a' > 0 {
      Halving(a', i');
    } else {
      LowestLevel(i');
    }
    if a > 0 && a' > 0 {
      InOrderInjective(a - 1, i, a' - 1, i');
    }
  }

  lemma LowestLevel(i: nat)
    ensures InOrder(0, i) == 2 * i
  {
  }

  /** Every step has a place. */
  lemma {:induction false} InOrderSurjective(b: nat, step: nat) returns (a: nat, i: nat)
    requires step < Pow2(b) - 1
    ensures a < b && i < Pow2(b - 1 - a) && InOrder(a, i) == step
  {
    HalfPower(b);
    hide *;
    if step % 2 == 0 {
      a, i := 0, step / 2;
      LowestLevel(i);
    } else {
      a, i := InOrderSurjective(b - 1, step / 2);
      a := a + 1;
      Halving(a, i);
    }
  }

  // ---- The reduction loop ----

  /** Node i of level a covers 2^(a+1) - 1 steps and leaves one step before the next node. */
  function Covering(a: nat, i: nat): Node {
    Node(i * Pow2(a + 1), i * Pow2(a + 1) + Pow2(a + 1) - 1)
  }

  lemma Joining(a: nat, i: nat)
    ensures Parent(Covering(a, 2 * i), Covering(a, 2 * i + 1)) == Covering(a + 1, i)
    ensures Covering(a, 2 * i).j == InOrder(a + 1, i)
    ensures Covering(a, 2 * i + 1).i == Covering(a, 2 * i).j + 1
  {
    hide Pow2;
    HalfPower(a + 2);
    JoinArithmetic(i, Pow2(a + 1));
  }

  lemma JoinArithmetic(i: int, p: int)
    ensures (2 * i) * p == i * (2 * p) && (2 * i + 1) * p == i * (2 * p) + p
  {
  }

  /** The steps proved so far are the ones shown. */
  ghost predicate Shown(order: seq<nat>, numSteps: nat) {
    && |order| <= numSteps
    && forall t :: 0 <= t < |order| ==> LevelOf(numSteps, t) >= 0 && order[t] == OnStep(numSteps, t)
  }

  lemma ShowNext(order: seq<nat>, b: nat, a: nat, i: nat)
    requires a < b && i < Pow2(b - 1 - a) && |order| == Below(b, a) + i && Shown(order, Pow2(b) - 1)
    ensures Shown(order + [InOrder(a, i)], Pow2(b) - 1)
  {
    hide OnStep, LevelOf, InOrder;
    OnStepIsInOrder(b, a, i);
  }

  lemma BelowNext(b: nat, a: nat)
    requires a < b
    ensures Below(b, a) + Pow2(b - 1 - a) == Below(b, a + 1)
    ensures Below(b, 0) == 0
  {
    HalfPower(b - a);
  }

  /** The leaves: steps 0, 2, 4, ... */
  method ProveLeaves(numSteps: nat, ghost b: nat) returns (vs: seq<Node>, order: seq<nat>)
    requires b >= 1 && numSteps == Pow2(b) - 1
    ensures |vs| == Pow2(b - 1) && forall i :: 0 <= i < |vs| ==> vs[i] == Covering(0, i)
    ensures |order| == Below(b, 1) && Shown(order, numSteps)
  {
    hide OnStep, LevelOf;
    vs, order := [], [];
    HalfPower(b);
    BelowNext(b, 0);
    var i := 0;
    while i < numSteps
      invariant i == 2 * |vs| && |order| == |vs| <= Pow2(b - 1)
      invariant forall k :: 0 <= k < |vs| ==> vs[k] == Covering(0, k)
      invariant Shown(order, numSteps)
      decreases numSteps - i + 1
    {
      ShowNext(order, b, 0, |vs|);
      assert InOrder(0, |vs|) == i && Covering(0, |vs|) == Node(i, i + 1);
      vs, order := vs + [Node(i, i + 1)], order + [i];
      i := i + 2;
    }
  }

  /** One level: every pair of neighbours is joined. */
  method ProveLevel(vs: seq<Node>, order: seq<nat>, ghost b: nat, ghost a: nat) returns (vs': seq<Node>, order': seq<nat>)
    requires a + 1 < b && |vs| == Pow2(b - 1 - a) && forall i :: 0 <= i < |vs| ==> vs[i] == Covering(a, i)
    requires |order| == Below(b, a + 1) && Shown(order, Pow2(b) - 1)
    ensures |vs'| == Pow2(b - 2 - a) && forall i :: 0 <= i < |vs'| ==> vs'[i] == Covering(a + 1, i)
    ensures |order'| == Below(b, a + 2) && Shown(order', Pow2(b) - 1)
  {
    hide OnStep, LevelOf, Covering, InOrder;
    vs', order' := [], order;
    HalfPower(b - 1 - a);
    BelowNext(b, a + 1);
    var k := 0;
    while k < |vs|
      invariant k == 2 * |vs'| <= |vs|
      invariant forall i :: 0 <= i < |vs'| ==> vs'[i] == Covering(a + 1, i)
      invariant |order'| == |order| + |vs'| && Shown(order', Pow2(b) - 1)
    {
      Joining(a, |vs'|);
      ShowNext(order', b, a + 1, |vs'|);
      order' := order' + [vs[k].j];
      vs' := vs' + [Parent(vs[k], vs[k + 1])];
      k := k + 2;
    }
  }

  /** The parallel branches of `local_prove`. Pairs are always complete, 2^b - 1 proofs are made, the t-th
      proves exactly the step shown for it, and the root covers the whole trace. */
  method LocalProve(numSteps: nat, ghost b: nat) returns (root: Node, order: seq<nat>)
    requires b >= 1 && numSteps == Pow2(b) - 1
    ensures root == Node(0, numSteps)
    ensures |order| == numSteps && Shown(order, numSteps)
  {
    hide OnStep, LevelOf;
    var vs;
    vs, order := ProveLeaves(numSteps, b);
    ghost var a := 0;
    while |vs| != 1
      invariant a < b && |vs| == Pow2(b - 1 - a) && forall i :: 0 <= i < |vs| ==> vs[i] == Covering(a, i)
      invariant |order| == Below(b, a + 1) && Shown(order, numSteps)
      decreases b - a
    {
      vs, order := ProveLevel(vs, order, b, a);
      a := a + 1;
    }
    Pow2Injective(b - 1 - a, 0);
    root := vs[0];
  }

  /** Every step of the trace is proved exactly once. */
  lemma EachStepOnce(order: seq<nat>, b: nat, step: nat) returns (t: nat)
    requires |order| == Pow2(b) - 1 && Shown(order, Pow2(b) - 1) && step < Pow2(b) - 1
    ensures t < |order| && order[t] == step
    ensures forall u :: 0 <= u < |order| && order[u] == step ==> u == t
  {
    hide OnStep, LevelOf, InOrder, Below;
    var a, i := InOrderSurjective(b, step);
    OnStepIsInOrder(b, a, i);
    t := Below(b, a) + i;
    forall u | 0 <= u < |order| && order[u] == step
      ensures u == t
    {
      var a', i' := PlaceOf(b, u);
      OnStepIsInOrder(b, a', i');
      InOrderInjective(a, i, a', i');
    }
  }

  /** Every iteration belongs to a level. */
  lemma PlaceOf(b: nat, t: nat) returns (a: nat, i: nat)
    requires t < Pow2(b) - 1
    ensures a < b && i < Pow2(b - 1 - a) && t == Below(b, a) + i
  {
    a, i := PlaceFrom(b, t, 0);
  }

  lemma {:induction false} PlaceFrom(b: nat, t: nat, k: nat) returns (a: nat, i: nat)
    requires k < b && Below(b, k) <= t < Pow2(b) - 1
    ensures a < b && i < Pow2(b - 1 - a) && t == Below(b, a) + i
    decreases b - k
  {
    BelowNext(b, k);
    if t < Below(b, k + 1) {
      a, i := k, t - Below(b, k);
    } else {
      a, i := PlaceFrom(b, t, k + 1);
    }
  }
}
