/** Stable matching (examples/src/bin/galeshapley.rs): employers propose in the order of their lists,
    candidates keep the best offer. */
module GaleShapley {
  import opened Wrappers

  // ---- Preference lists ----

  /** Every number below k, each exactly once. */
  ghost predicate Complete(s: seq<nat>, k: nat) {
    && (forall i :: 0 <= i < |s| ==> s[i] < k)
    && (forall i, j :: 0 <= i < j < |s| ==> s[i] != s[j])
    && forall x: nat :: x < k ==> x in s
  }

  /** The position of x in a list, or its length. */
  function Rank(s: seq<nat>, x: nat): (r: nat)
    ensures r <= |s|
    ensures x in s ==> r < |s| && s[r] == x
    ensures x !in s ==> r == |s|
  {
    if s == [] then 0 else if s[0] == x then 0 else 1 + Rank(s[1..], x)
  }

  lemma RankOfEntry(s: seq<nat>, k: nat, i: nat)
    requires Complete(s, k) && i < |s|
    ensures Rank(s, s[i]) == i
  {
  }

  /** The lists of n employers over m candidates, and of the candidates over the employers. */
  datatype Market = Market(n: nat, m: nat, employers: seq<seq<nat>>, candidates: seq<seq<nat>>)
  {
    ghost predicate Valid() {
      && |employers| == n && |candidates| == m
      && (forall e :: 0 <= e < n ==> Complete(employers[e], m))
      && (forall c :: 0 <= c < m ==> Complete(candidates[c], n))
    }

    /** Employer e would rather hire c than its hire h. */
    ghost predicate Prefers(e: nat, c: nat, h: Option<nat>)
      requires Valid() && e < n && c < m
    {
      h == None || Rank(employers[e], c) < Rank(employers[e], h.value)
    }

    /** Candidate c would rather work for e than for its employer h. */
    ghost predicate Wants(c: nat, e: nat, h: Option<nat>)
      requires Valid() && e < n && c < m
    {
      h == None || Rank(candidates[c], e) < Rank(candidates[c], h.value)
    }

    /** hires and held describe the same pairs, each employer and each candidate in at most one. */
    ghost predicate Matching(hires: seq<Option<nat>>, held: seq<Option<nat>>)
    {
      && |hires| == n && |held| == m
      && (forall e :: 0 <= e < n && hires[e].Some? ==> hires[e].value < m && held[hires[e].value] == Some(e))
      && (forall c :: 0 <= c < m && held[c].Some? ==> held[c].value < n && hires[held[c].value] == Some(c))
    }

    ghost predicate Blocks(e: nat, c: nat, hires: seq<Option<nat>>, held: seq<Option<nat>>)
      requires Valid() && Matching(hires, held) && e < n && c < m
    {
      Prefers(e, c, hires[e]) && Wants(c, e, held[c])
    }

    /** No employer and candidate would both rather have each other. */
    ghost predicate Stable(hires: seq<Option<nat>>, held: seq<Option<nat>>)
      requires Valid()
    {
      Matching(hires, held) && forall e, c :: 0 <= e < n && 0 <= c < m ==> !Blocks(e, c, hires, held)
    }

    /** Candidate c holds an offer that it prefers to e. */
    ghost predicate Rejects(c: nat, e: nat, held: seq<Option<nat>>)
      requires Valid() && |held| == m && e < n && c < m
    {
      held[c].Some? && Rank(candidates[c], held[c].value) < Rank(candidates[c], e)
    }

    /** No stable matching pairs e with c. */
    ghost predicate Unachievable(e: nat, c: nat)
      requires Valid() && e < n && c < m
    {
      forall hires, held :: Stable(hires, held) ==> hires[e] != Some(c)
    }

    /** Every candidate before position i on e's list has turned e down. */
    ghost predicate RejectedUpTo(e: nat, i: nat, held: seq<Option<nat>>)
      requires Valid() && |held| == m && e < n
    {
      i <= |employers[e]| && forall k :: 0 <= k < i ==> Rejects(employers[e][k], e, held)
    }

    /** No candidate before position i on e's list is ever matched with e. */
    ghost predicate UnachievableUpTo(e: nat, i: nat)
      requires Valid() && e < n
    {
      i <= |employers[e]| && forall k :: 0 <= k < i ==> Unachievable(e, employers[e][k])
    }

    /** How far e has come down its list: to its hire, or, when it is not waiting, to the end. */
    ghost function Reached(e: nat, hires: seq<Option<nat>>): nat
      requires Valid() && |hires| == n && e < n
    {
      if hires[e].Some? then Rank(employers[e], hires[e].value) else |employers[e]|
    }

    /** The state between proposals. */
    ghost predicate Inv(waiting: set<nat>, free: set<nat>, hires: seq<Option<nat>>, held: seq<Option<nat>>)
      requires Valid()
    {
      && Matching(hires, held)
      && (forall e :: e in waiting ==> e < n && hires[e] == None)
      && (forall c: nat :: c in free <==> c < m && held[c] == None)
      && (forall e :: 0 <= e < n && e !in waiting ==> RejectedUpTo(e, Reached(e, hires), held))
      && (forall e :: 0 <= e < n && e !in waiting ==> UnachievableUpTo(e, Reached(e, hires)))
    }

    /** The position of the held offer on the candidate's list; the length when there is none. */
    ghost function HeldRank(c: nat, held: seq<Option<nat>>): nat
      requires Valid() && |held| == m && c < m
    {
      if held[c].Some? then Rank(candidates[c], held[c].value) else |candidates[c]| + 1
    }

    ghost function TotalRank(held: seq<Option<nat>>, k: nat): nat
      requires Valid() && |held| == m && k <= m
    {
      if k == 0 then 0 else TotalRank(held, k - 1) + HeldRank(k - 1, held)
    }

    lemma {:induction false} TotalRankDrops(held: seq<Option<nat>>, c: nat, o: Option<nat>, k: nat)
      requires Valid() && |held| == m && c < m && k <= m
      requires HeldRank(c, held[c := o]) < HeldRank(c, held)
      ensures TotalRank(held[c := o], k) <= TotalRank(held, k)
      ensures c < k ==> TotalRank(held[c := o], k) < TotalRank(held, k)
    {
      if k > 0 {
        TotalRankDrops(held, c, o, k - 1);
      }
    }

    /** Improving offers keep every rejection. */
    lemma RejectionsStay(e: nat, i: nat, held: seq<Option<nat>>, c: nat, x: nat)
      requires Valid() && |held| == m && e < n && c < m && x < n && RejectedUpTo(e, i, held)
      requires HeldRank(c, held[c := Some(x)]) < HeldRank(c, held)
      ensures RejectedUpTo(e, i, held[c := Some(x)])
    {
    }

    /** The heart of optimality: a candidate that turns e down is never matched with e in a stable
        matching, because the employer it holds would block that matching. */
    lemma RejectedIsUnachievable(waiting: set<nat>, free: set<nat>, hires: seq<Option<nat>>, held: seq<Option<nat>>,
                                 e: nat, c: nat)
      requires Valid() && Inv(waiting, free, hires, held) && e < n && c < m && Rejects(c, e, held)
      ensures Unachievable(e, c)
    {
      var other := held[c].value;
      assert hires[other] == Some(c) && other !in waiting;
      forall h, g | Stable(h, g)
        ensures h[e] != Some(c)
      {
        if h[e] == Some(c) {
          BlockingPair(e, c, other, h, g);
        }
      }
    }

    lemma BlockingPair(e: nat, c: nat, other: nat, h: seq<Option<nat>>, g: seq<Option<nat>>)
      requires Valid() && e < n && c < m && other < n
      requires Matching(h, g) && h[e] == Some(c)
      requires Rank(candidates[c], other) < Rank(candidates[c], e)
      requires forall k :: 0 <= k < Rank(employers[other], c) ==> h[other] != Some(employers[other][k])
      ensures Blocks(other, c, h, g)
    {
      assert g[c] == Some(e) && Wants(c, other, g[c]);
      if h[other].Some? {
        var d := h[other].value;
        var i := Rank(employers[other], d);
        assert d in employers[other] && employers[other][i] == d;
        assert !(i < Rank(employers[other], c));
        assert g[d] == Some(other) && d != c;
        assert c in employers[other];
      }
    }

    // ---- One proposal ----

    /** After e is hired at position i and possibly another employer y is let go, everyone who is not
        waiting has still been turned down, for good, by all they prefer. */
    lemma ProgressKept(waiting: set<nat>, hires: seq<Option<nat>>, held: seq<Option<nat>>, e: nat, i: nat,
                       waiting': set<nat>, hires': seq<Option<nat>>, x: nat)
      requires Valid() && |held| == m && |hires| == |hires'| == n && e < n && i < |employers[e]| && x < n && x !in waiting'
      requires HeldRank(employers[e][i], held[employers[e][i] := Some(e)]) < HeldRank(employers[e][i], held)
      requires x == e || x !in waiting
      requires hires'[x] == if x == e then Some(employers[e][i]) else hires[x]
      requires RejectedUpTo(e, i, held) && UnachievableUpTo(e, i)
      requires x !in waiting ==> RejectedUpTo(x, Reached(x, hires), held) && UnachievableUpTo(x, Reached(x, hires))
      ensures RejectedUpTo(x, Reached(x, hires'), held[employers[e][i] := Some(e)])
      ensures UnachievableUpTo(x, Reached(x, hires'))
    {
      hide Rejects, Unachievable, HeldRank;
      if x == e {
        RankOfEntry(employers[e], m, i);
        RejectionsStay(e, i, held, employers[e][i], e);
      } else {
        RejectionsStay(x, Reached(x, hires), held, employers[e][i], e);
      }
    }

    lemma ProgressKeptByAll(waiting: set<nat>, hires: seq<Option<nat>>, held: seq<Option<nat>>, e: nat, i: nat,
                            waiting': set<nat>, hires': seq<Option<nat>>)
      requires Valid() && |held| == m && |hires| == |hires'| == n && e < n && i < |employers[e]|
      requires HeldRank(employers[e][i], held[employers[e][i] := Some(e)]) < HeldRank(employers[e][i], held)
      requires forall x :: 0 <= x < n && x !in waiting' ==> x == e || x !in waiting
      requires forall x :: 0 <= x < n && x !in waiting' ==> hires'[x] == if x == e then Some(employers[e][i]) else hires[x]
      requires RejectedUpTo(e, i, held) && UnachievableUpTo(e, i)
      requires forall x :: 0 <= x < n && x !in waiting ==> RejectedUpTo(x, Reached(x, hires), held) && UnachievableUpTo(x, Reached(x, hires))
      ensures forall x :: 0 <= x < n && x !in waiting' ==> RejectedUpTo(x, Reached(x, hires'), held[employers[e][i] := Some(e)])
      ensures forall x :: 0 <= x < n && x !in waiting' ==> UnachievableUpTo(x, Reached(x, hires'))
    {
      hide RejectedUpTo, UnachievableUpTo, Reached, HeldRank;
      forall x | 0 <= x < n && x !in waiting'
        ensures RejectedUpTo(x, Reached(x, hires'), held[employers[e][i] := Some(e)])
        ensures UnachievableUpTo(x, Reached(x, hires'))
      {
        ProgressKept(waiting, hires, held, e, i, waiting', hires', x);
      }
    }

    /** e hires c, which was free. */
    lemma HireFree(waiting: set<nat>, free: set<nat>, hires: seq<Option<nat>>, held: seq<Option<nat>>, e: nat, i: nat)
      requires Valid() && Inv(waiting, free, hires, held) && e in waiting && i < |employers[e]| && employers[e][i] in free
      requires RejectedUpTo(e, i, held) && UnachievableUpTo(e, i)
      ensures var c := employers[e][i];
              && Inv(waiting - {e}, free - {c}, hires[e := Some(c)], held[c := Some(e)])
              && TotalRank(held[c := Some(e)], m) < TotalRank(held, m)
    {
      hide RejectedUpTo, UnachievableUpTo, Reached, TotalRank, Rank, Complete;
      var c := employers[e][i];
      assert HeldRank(c, held[c := Some(e)]) < HeldRank(c, held);
      hide HeldRank;
      TotalRankDrops(held, c, Some(e), m);
      ProgressKeptByAll(waiting, hires, held, e, i, waiting - {e}, hires[e := Some(c)]);
    }

    /** e takes c over from the employer it held. */
    lemma TakeOver(waiting: set<nat>, free: set<nat>, hires: seq<Option<nat>>, held: seq<Option<nat>>, e: nat, i: nat, current: nat)
      requires Valid() && Inv(waiting, free, hires, held) && e in waiting && i < |employers[e]|
      requires current < n && hires[current] == Some(employers[e][i])
      requires Rank(candidates[employers[e][i]], e) < Rank(candidates[employers[e][i]], current)
      requires RejectedUpTo(e, i, held) && UnachievableUpTo(e, i)
      ensures var c := employers[e][i];
              && current !in waiting && current != e
              && Inv(waiting - {e} + {current}, free, hires[e := Some(c)][current := None], held[c := Some(e)])
              && TotalRank(held[c := Some(e)], m) < TotalRank(held, m)
    {
      hide RejectedUpTo, UnachievableUpTo, Reached, TotalRank, Rank, Complete;
      var c := employers[e][i];
      assert |held| == m && |hires| == n && held[c] == Some(current) && hires[e] == None && current !in waiting;
      assert HeldRank(c, held[c := Some(e)]) < HeldRank(c, held);
      hide HeldRank;
      TotalRankDrops(held, c, Some(e), m);
      Transferred(hires, held, e, c, current);
      hide Matching;
      ProgressKeptByAll(waiting, hires, held, e, i, waiting - {e} + {current}, hires[e := Some(c)][current := None]);
    }

    lemma Transferred(hires: seq<Option<nat>>, held: seq<Option<nat>>, e: nat, c: nat, current: nat)
      requires Matching(hires, held) && e < n && c < m && current < n && hires[e] == None && held[c] == Some(current)
      ensures Matching(hires[e := Some(c)][current := None], held[c := Some(e)])
    {
    }

    lemma TurnedDown(waiting: set<nat>, free: set<nat>, hires: seq<Option<nat>>, held: seq<Option<nat>>, e: nat, c: nat, current: nat)
      requires Valid() && Inv(waiting, free, hires, held) && e in waiting && c < m && current < n && hires[current] == Some(c)
      requires !(Rank(candidates[c], e) < Rank(candidates[c], current))
      ensures Rejects(c, e, held) && Unachievable(e, c)
    {
      DistinctRanks(candidates[c], n, e, current);
      RejectedIsUnachievable(waiting, free, hires, held, e, c);
    }

    // ---- What holds at the end ----

    lemma RestRejects(waiting: set<nat>, free: set<nat>, hires: seq<Option<nat>>, held: seq<Option<nat>>, e: nat, c: nat)
      requires Valid() && Inv(waiting, free, hires, held) && e < n && c < m && e !in waiting && Prefers(e, c, hires[e])
      ensures Rejects(c, e, held) && Unachievable(e, c)
    {
      hide Rejects, Unachievable;
      assert c in employers[e] && employers[e][Rank(employers[e], c)] == c;
    }

    /** With nobody waiting, the matching is stable. */
    lemma EndsStable(free: set<nat>, hires: seq<Option<nat>>, held: seq<Option<nat>>)
      requires Valid() && Inv({}, free, hires, held)
      ensures Stable(hires, held)
    {
      forall e, c | 0 <= e < n && 0 <= c < m
        ensures !Blocks(e, c, hires, held)
      {
        if Prefers(e, c, hires[e]) {
          RestRejects({}, free, hires, held, e, c);
        }
      }
    }

    /** Best for the employers: nobody does better in any stable matching. */
    ghost predicate EmployerOptimal(hires: seq<Option<nat>>)
      requires Valid() && |hires| == n
    {
      forall h: seq<Option<nat>>, g: seq<Option<nat>>, e: nat :: Stable(h, g) && e < n && h[e].Some? ==> !Prefers(e, h[e].value, hires[e])
    }

    lemma EndsOptimal(free: set<nat>, hires: seq<Option<nat>>, held: seq<Option<nat>>)
      requires Valid() && Inv({}, free, hires, held)
      ensures EmployerOptimal(hires)
    {
      forall h: seq<Option<nat>>, g: seq<Option<nat>>, e: nat | Stable(h, g) && e < n && h[e].Some?
        ensures !Prefers(e, h[e].value, hires[e])
      {
        if Prefers(e, h[e].value, hires[e]) {
          RestRejects({}, free, hires, held, e, h[e].value);
        }
      }
    }

    /** An employer-optimal stable matching is the worst one for the candidates. */
    lemma CandidatePessimal(hires: seq<Option<nat>>, held: seq<Option<nat>>, h: seq<Option<nat>>, g: seq<Option<nat>>, c: nat)
      requires Valid() && Stable(hires, held) && EmployerOptimal(hires) && Stable(h, g)
      requires c < m && held[c].Some?
      ensures g[c].Some? && !Wants(c, held[c].value, g[c])
    {
      var e := held[c].value;
      assert hires[e] == Some(c);
      if h[e] == Some(c) {
        assert g[c] == Some(e);
      } else {
        if h[e].Some? {
          assert !Prefers(e, h[e].value, hires[e]);
          DistinctRanks(employers[e], m, h[e].value, c);
        }
        assert !Blocks(e, c, h, g);
      }
    }
  }

  lemma DistinctRanks(s: seq<nat>, k: nat, x: nat, y: nat)
    requires Complete(s, k) && x < k && y < k && x != y
    ensures Rank(s, x) != Rank(s, y)
  {
    assert x in s && y in s;
  }

  // ---- The algorithm ----

  /** All numbers below k. */
  function Below(k: nat): (s: set<nat>)
    ensures forall x: nat :: x in s <==> x < k
  {
    if k == 0 then {} else Below(k - 1) + {k - 1}
  }

  /** `hires.iter().position(..)`: the first employer that hired c. */
  method FindEmployer(hires: seq<Option<nat>>, c: nat) returns (e: Option<nat>)
    ensures e.Some? ==> e.value < |hires| && hires[e.value] == Some(c)
    ensures e.None? ==> forall i :: 0 <= i < |hires| ==> hires[i] != Some(c)
  {
    for i := 0 to |hires|
      invariant forall j :: 0 <= j < i ==> hires[j] != Some(c)
    {
      if hires[i] == Some(c) {
        return Some(i);
      }
    }
    e := None;
  }

  lemma {:induction false} Least(s: set<nat>) returns (z: nat)
    requires s != {}
    ensures z in s && forall y :: y in s ==> z <= y
  {
    var x :| x in s;
    var rest := s - {x};
    z := x;
    if rest != {} {
      var w := Least(rest);
      z := if w < x then w else x;
    }
    forall y | y in s
      ensures z <= y
    {
      assert y == x || y in rest;
    }
  }

  /** `stable_matching`. It terminates, its unwraps and assertions never fail, and the result is a stable
      matching in which every employer does at least as well as in any other. */
  method StableMatching(market: Market) returns (hires: seq<Option<nat>>, ghost held: seq<Option<nat>>)
    requires market.Valid()
    ensures market.Stable(hires, held)
    ensures market.EmployerOptimal(hires)
  {
    hires := seq(market.n, _ => None);
    held := seq(market.m, _ => None);
    var waiting, free := Below(market.n), Below(market.m);
    while waiting != {}
      invariant market.Inv(waiting, free, hires, held)
      decreases market.TotalRank(held, market.m), |waiting|
    {
      var least := Least(waiting);
      var next :| next in waiting && forall y :: y in waiting ==> next <= y;
      waiting, free, hires, held := Propose(market, next, waiting, free, hires, held);
    }
    market.EndsStable(free, hires, held);
    market.EndsOptimal(free, hires, held);
  }

  /** Employer e goes down its list until a candidate accepts. */
  method Propose(market: Market, e: nat, waiting: set<nat>, free: set<nat>, hires: seq<Option<nat>>, ghost held: seq<Option<nat>>)
    returns (waiting': set<nat>, free': set<nat>, hires': seq<Option<nat>>, ghost held': seq<Option<nat>>)
    requires market.Valid() && market.Inv(waiting, free, hires, held) && e in waiting
    ensures market.Inv(waiting', free', hires', held')
    ensures || market.TotalRank(held', market.m) < market.TotalRank(held, market.m)
            || (held' == held && |waiting'| < |waiting|)
  {
    hide market.Rejects, market.Unachievable, market.TotalRank, Rank;
    var prefs := market.employers[e];
    for i := 0 to |prefs|
      invariant market.RejectedUpTo(e, i, held) && market.UnachievableUpTo(e, i)
    {
      var c := prefs[i];
      if c in free {
        market.HireFree(waiting, free, hires, held, e, i);
        return waiting - {e}, free - {c}, hires[e := Some(c)], held[c := Some(e)];
      }
      assert hires[held[c].value] == Some(c);
      var found := FindEmployer(hires, c);
      var current := found.value;
      if Rank(market.candidates[c], e) < Rank(market.candidates[c], current) {
        market.TakeOver(waiting, free, hires, held, e, i, current);
        return waiting - {e} + {current}, free, hires[e := Some(c)][current := None], held[c := Some(e)];
      }
      market.TurnedDown(waiting, free, hires, held, e, c, current);
    }
    waiting', free', hires', held' := waiting - {e}, free, hires, held;
  }
}
