/** Offline memory checking (`AddrTimestamps` and the four multisets hashed by `Layers` in
    spartan/src/sparse_mlpoly.rs).

    A read-only memory is checked by comparing two multisets of (address, value, timestamp): what was
    put into memory (initially, and again after every read with the timestamp increased) and what was
    taken out (by every read, and by a final audit). */
module MemoryChecking {
  import opened Field
  import opened Vectors

  datatype Access = Access(addr: nat, val: F, ts: nat)

  function Init(mem: seq<F>): (s: seq<Access>)
    ensures |s| == |mem|
  {
    seq(|mem|, a requires 0 <= a < |mem| => Access(a, mem[a], 0))
  }

  function Audit(mem: seq<F>, audit: seq<nat>): (s: seq<Access>)
    requires |audit| == |mem|
    ensures |s| == |mem|
  {
    seq(|mem|, a requires 0 <= a < |mem| => Access(a, mem[a], audit[a]))
  }

  /** The same access with the timestamp a write-back gives it. */
  function Written(x: Access): Access {
    x.(ts := x.ts + 1)
  }

  function Writes(taken: seq<Access>): (s: seq<Access>)
    ensures |s| == |taken|
  {
    seq(|taken|, i requires 0 <= i < |taken| => Written(taken[i]))
  }

  // ---- What the check means ----

  /** Everything put into memory is taken out again. */
  ghost predicate Balanced(mem: seq<F>, taken: seq<Access>, audit: seq<nat>)
    requires |audit| == |mem|
  {
    multiset(Init(mem)) + multiset(Writes(taken)) == multiset(taken) + multiset(Audit(mem, audit))
  }

  /** An access at the right value, before the audit timestamp of its address. */
  ghost predicate Proper(mem: seq<F>, audit: seq<nat>, x: Access)
    requires |audit| == |mem|
  {
    x.addr < |mem| && x.val == mem[x.addr] && x.ts < audit[x.addr]
  }

  /** The reads are exactly one access for each address and each timestamp below the audit one. */
  ghost predicate Sequential(mem: seq<F>, taken: seq<Access>, audit: seq<nat>)
    requires |audit| == |mem|
  {
    forall x :: multiset(taken)[x] == if Proper(mem, audit, x) then 1 else 0
  }

  lemma {:induction false} InitMultiplicity(mem: seq<F>, k: nat, x: Access)
    requires k <= |mem|
    ensures multiset(Init(mem)[..k])[x] == if x.addr < k && x.val == mem[x.addr] && x.ts == 0 then 1 else 0
  {
    if k > 0 {
      InitMultiplicity(mem, k - 1, x);
      assert Init(mem)[..k] == Init(mem)[..k - 1] + [Access(k - 1, mem[k - 1], 0)];
    }
  }

  lemma {:induction false} AuditMultiplicity(mem: seq<F>, audit: seq<nat>, k: nat, x: Access)
    requires |audit| == |mem| && k <= |mem|
    ensures multiset(Audit(mem, audit)[..k])[x]
         == if x.addr < k && x.val == mem[x.addr] && x.ts == audit[x.addr] then 1 else 0
  {
    if k > 0 {
      AuditMultiplicity(mem, audit, k - 1, x);
      assert Audit(mem, audit)[..k] == Audit(mem, audit)[..k - 1] + [Access(k - 1, mem[k - 1], audit[k - 1])];
    }
  }

  lemma {:induction false} WritesMultiplicity(taken: seq<Access>, x: Access)
    ensures multiset(Writes(taken))[x] == if x.ts == 0 then 0 else multiset(taken)[x.(ts := x.ts - 1)]
  {
    if taken != [] {
      var n := |taken| - 1;
      WritesMultiplicity(taken[..n], x);
      assert taken == taken[..n] + [taken[n]];
      assert Writes(taken) == Writes(taken[..n]) + [Written(taken[n])];
    }
  }

  /** The balance equation at one access. */
  lemma BalanceAt(mem: seq<F>, taken: seq<Access>, audit: seq<nat>, x: Access)
    requires |audit| == |mem|
    ensures (multiset(Init(mem)) + multiset(Writes(taken)))[x]
         == (if x.addr < |mem| && x.val == mem[x.addr] && x.ts == 0 then 1 else 0)
          + (if x.ts == 0 then 0 else multiset(taken)[x.(ts := x.ts - 1)])
    ensures (multiset(taken) + multiset(Audit(mem, audit)))[x]
         == multiset(taken)[x]
          + (if x.addr < |mem| && x.val == mem[x.addr] && x.ts == audit[x.addr] then 1 else 0)
  {
    InitMultiplicity(mem, |mem|, x);
    assert Init(mem)[..|mem|] == Init(mem);
    AuditMultiplicity(mem, audit, |mem|, x);
    assert Audit(mem, audit)[..|mem|] == Audit(mem, audit);
    WritesMultiplicity(taken, x);
  }

  /** Descent on the timestamp: what a balanced memory hands out was put there one step earlier. */
  lemma {:induction false} BalancedAt(mem: seq<F>, taken: seq<Access>, audit: seq<nat>, x: Access)
    requires |audit| == |mem| && Balanced(mem, taken, audit)
    ensures multiset(taken)[x] == if Proper(mem, audit, x) then 1 else 0
    decreases x.ts
  {
    BalanceAt(mem, taken, audit, x);
    if x.ts > 0 {
      BalancedAt(mem, taken, audit, x.(ts := x.ts - 1));
    }
  }

  /** The memory check holds if and only if every read returned the value of its address and the reads
      of each address carry the timestamps 0, 1, ..., audit - 1, each exactly once. */
  lemma BalancedIffSequential(mem: seq<F>, taken: seq<Access>, audit: seq<nat>)
    requires |audit| == |mem|
    ensures Balanced(mem, taken, audit) <==> Sequential(mem, taken, audit)
  {
    if Balanced(mem, taken, audit) {
      forall x
        ensures multiset(taken)[x] == if Proper(mem, audit, x) then 1 else 0
      {
        BalancedAt(mem, taken, audit, x);
      }
    }
    if Sequential(mem, taken, audit) {
      forall x
        ensures (multiset(Init(mem)) + multiset(Writes(taken)))[x] == (multiset(taken) + multiset(Audit(mem, audit)))[x]
      {
        BalanceAt(mem, taken, audit, x);
      }
    }
  }

  /** Soundness for the reader: a passing check leaves no wrong value. */
  lemma ReadsAreRight(mem: seq<F>, taken: seq<Access>, audit: seq<nat>, i: nat)
    requires |audit| == |mem| && Balanced(mem, taken, audit) && i < |taken|
    ensures taken[i].addr < |mem| && taken[i].val == mem[taken[i].addr]
  {
    BalancedAt(mem, taken, audit, taken[i]);
    assert taken[i] in multiset(taken);
  }

  /** No write-back repeats, neither another write-back nor an initial entry. */
  lemma WritesNeverRepeat(mem: seq<F>, taken: seq<Access>, audit: seq<nat>, x: Access)
    requires |audit| == |mem| && Balanced(mem, taken, audit)
    ensures (multiset(Init(mem)) + multiset(Writes(taken)))[x] <= 1
  {
    BalanceAt(mem, taken, audit, x);
    if x.ts > 0 {
      BalancedAt(mem, taken, audit, x.(ts := x.ts - 1));
    }
  }

  // ---- The timestamps of AddrTimestamps::new ----

  ghost function Count(s: seq<nat>, a: nat): nat {
    multiset(s)[a]
  }

  /** Each access is stamped with the number of earlier accesses to its address. */
  ghost function Stamps(s: seq<nat>): (ts: seq<nat>)
    ensures |ts| == |s|
  {
    seq(|s|, i requires 0 <= i < |s| => Count(s[..i], s[i]))
  }

  ghost function Counts(s: seq<nat>, cells: nat): (c: seq<nat>)
    ensures |c| == cells
  {
    seq(cells, a requires 0 <= a < cells => Count(s, a))
  }

  predicate Addresses(s: seq<nat>, cells: nat) {
    forall i :: 0 <= i < |s| ==> s[i] < cells
  }

  lemma StampsSnoc(s: seq<nat>, a: nat)
    ensures Stamps(s + [a]) == Stamps(s) + [Count(s, a)]
  {
    forall i | 0 <= i <= |s|
      ensures Stamps(s + [a])[i] == (Stamps(s) + [Count(s, a)])[i]
    {
      assert (s + [a])[..i] == s[..i];
      assert s[..|s|] == s;
    }
  }

  lemma CountsSnoc(s: seq<nat>, a: nat, cells: nat)
    requires a < cells
    ensures Counts(s + [a], cells) == Counts(s, cells)[a := Count(s, a) + 1]
  {
  }

  /** One instance of the batch, from the counts left by the instances before it. */
  method StampInstance(cells: nat, ops: seq<nat>, before: seq<nat>, ghost past: seq<nat>)
    returns (readTs: seq<nat>, audit: seq<nat>)
    requires Addresses(ops, cells) && before == Counts(past, cells)
    ensures Stamps(past + ops) == Stamps(past) + readTs
    ensures audit == Counts(past + ops, cells)
    ensures |readTs| == |ops|
  {
    audit, readTs := before, [];
    assert past + ops[..0] == past;
    for i := 0 to |ops|
      invariant |readTs| == i && |audit| == cells
      invariant Stamps(past + ops[..i]) == Stamps(past) + readTs
      invariant audit == Counts(past + ops[..i], cells)
    {
      var addr := ops[i];
      StampsSnoc(past + ops[..i], addr);
      CountsSnoc(past + ops[..i], addr, cells);
      assert past + ops[..i + 1] == past + ops[..i] + [addr];
      var r := audit[addr];
      readTs := readTs + [r];
      audit := audit[addr := r + 1];
    }
    assert ops[..|ops|] == ops;
  }

  /** `AddrTimestamps::new` on a whole batch: the accesses are stamped in order across instances, and
      the audit timestamps count the accesses to each cell. */
  method StampBatch(cells: nat, ops: seq<seq<nat>>) returns (readTs: seq<seq<nat>>, audit: seq<nat>)
    requires forall b :: 0 <= b < |ops| ==> Addresses(ops[b], cells)
    ensures |readTs| == |ops| && forall b :: 0 <= b < |ops| ==> |readTs[b]| == |ops[b]|
    ensures Flat(readTs) == Stamps(Flat(ops))
    ensures audit == Counts(Flat(ops), cells)
  {
    audit, readTs := seq(cells, _ => 0), [];
    assert ops[..0] == [];
    for b := 0 to |ops|
      invariant |readTs| == b && forall c :: 0 <= c < b ==> |readTs[c]| == |ops[c]|
      invariant Flat(readTs) == Stamps(Flat(ops[..b]))
      invariant audit == Counts(Flat(ops[..b]), cells)
    {
      FlatSnoc(ops, b);
      var ts;
      ts, audit := StampInstance(cells, ops[b], audit, Flat(ops[..b]));
      assert (readTs + [ts])[..b] == readTs;
      readTs := readTs + [ts];
    }
    assert ops[..|ops|] == ops;
  }

  /** The accesses of an honest reader. */
  ghost function HonestReads(mem: seq<F>, s: seq<nat>): (r: seq<Access>)
    requires Addresses(s, |mem|)
    ensures |r| == |s|
  {
    seq(|s|, i requires 0 <= i < |s| => Access(s[i], mem[s[i]], Stamps(s)[i]))
  }

  lemma {:induction false} HonestMultiplicity(mem: seq<F>, s: seq<nat>, x: Access)
    requires Addresses(s, |mem|)
    ensures multiset(HonestReads(mem, s))[x] == if Proper(mem, Counts(s, |mem|), x) then 1 else 0
  {
    hide HonestReads, Proper, Counts;
    if s == [] {
      NoReads(mem, x);
    } else {
      var n := |s| - 1;
      var t, a := s[..n], s[n];
      assert s == t + [a];
      NotYetProper(mem, t, a);
      HonestMultiplicity(mem, t, x);
      HonestSnoc(mem, t, a);
      ProperSnoc(mem, t, a, x);
    }
  }

  lemma NoReads(mem: seq<F>, x: Access)
    ensures HonestReads(mem, []) == [] && !Proper(mem, Counts([], |mem|), x)
  {
  }

  lemma NotYetProper(mem: seq<F>, t: seq<nat>, a: nat)
    requires Addresses(t, |mem|) && a < |mem|
    ensures !Proper(mem, Counts(t, |mem|), Access(a, mem[a], Count(t, a)))
  {
  }

  lemma HonestSnoc(mem: seq<F>, t: seq<nat>, a: nat)
    requires Addresses(t, |mem|) && a < |mem|
    ensures HonestReads(mem, t + [a]) == HonestReads(mem, t) + [Access(a, mem[a], Count(t, a))]
  {
    StampsSnoc(t, a);
  }

  /** One more access makes exactly one more access proper. */
  lemma ProperSnoc(mem: seq<F>, t: seq<nat>, a: nat, x: Access)
    requires Addresses(t, |mem|) && a < |mem|
    ensures Proper(mem, Counts(t + [a], |mem|), x)
       <==> Proper(mem, Counts(t, |mem|), x) || x == Access(a, mem[a], Count(t, a))
  {
    CountsSnoc(t, a, |mem|);
  }

  /** The honest timestamps pass the memory check. */
  lemma HonestBalanced(mem: seq<F>, s: seq<nat>)
    requires Addresses(s, |mem|)
    ensures Balanced(mem, HonestReads(mem, s), Counts(s, |mem|))
  {
    var taken, audit := HonestReads(mem, s), Counts(s, |mem|);
    forall x
      ensures multiset(taken)[x] == if Proper(mem, audit, x) then 1 else 0
    {
      HonestMultiplicity(mem, s, x);
    }
    BalancedIffSequential(mem, taken, audit);
  }
}
