/** The buffer pool of the parallel tree (nova/src/parallel_tree/block_pool.rs): a state machine over
    buffer ids, and the pool and its handles that implement it. */
module BlockPool {
  import opened Wrappers

  // ---- The state machine ----

  /** Slots, the free queue, the ids behind a live handle, and the ids published but not yet claimed. */
  datatype Pool<P> = Pool(blocks: seq<Option<P>>, free: seq<nat>, held: set<nat>, published: set<nat>)
  {
    /** Free, held and published ids partition the slots, the free queue holds no id twice, and free
        slots are empty. */
    ghost predicate Valid() {
      && (forall i, j :: 0 <= i < j < |free| ==> free[i] != free[j])
      && (forall id :: id in free ==> id < |blocks| && blocks[id] == None && id !in held && id !in published)
      && (forall id :: id in held ==> id < |blocks| && id !in published)
      && (forall id :: id in published ==> id < |blocks|)
      && (forall id: nat :: id < |blocks| ==> id in free || id in held || id in published)
    }
  }

  datatype Op<P> = Alloc | Write(id: nat, value: P) | Publish(id: nat) | Claim(id: nat) | Read(id: nat) | Free(id: nat)

  /** The operation does not fail: there is an id to take, or the id is in range. */
  ghost predicate Possible<P>(p: Pool<P>, op: Op<P>) {
    if op.Alloc? then p.free != [] else op.id < |p.blocks|
  }

  /** Which operations a well-behaved client may perform: it works through handles it holds, and claims
      only what was published. */
  ghost predicate Allowed<P>(p: Pool<P>, op: Op<P>) {
    && Possible(p, op)
    && match op
       case Alloc => true
       case Claim(id) => id in p.published
       case _ => op.id in p.held
  }

  ghost function Apply<P>(p: Pool<P>, op: Op<P>): Pool<P>
    requires Possible(p, op)
  {
    match op
    case Alloc => p.(free := p.free[1..], held := p.held + {p.free[0]})
    case Write(id, v) => p.(blocks := p.blocks[id := Some(v)])
    case Publish(id) => p.(held := p.held - {id}, published := p.published + {id})
    case Claim(id) => p.(held := p.held + {id}, published := p.published - {id})
    case Read(id) => p.(blocks := p.blocks[id := None])
    case Free(id) => p.(blocks := p.blocks[id := None], free := p.free + [id], held := p.held - {id})
  }

  /** Every allowed operation keeps the partition; a new handle sees an empty slot. */
  lemma ApplyKeepsValid<P>(p: Pool<P>, op: Op<P>)
    requires p.Valid() && Allowed(p, op)
    ensures Apply(p, op).Valid()
    ensures op.Alloc? ==> p.free[0] < |p.blocks| && p.blocks[p.free[0]] == None
  {
    KeptUnlessHarmful(p, op);
  }

  /** Which operations break the partition: touching a free slot through a stale id, and giving back an id
      that is not held. */
  ghost predicate Harmful<P>(p: Pool<P>, op: Op<P>) {
    match op
    case Alloc => false
    case Read(_) => false
    case Free(id) => id !in p.held
    case _ => op.id in p.free
  }

  /** Among all the operations that the source performs, these and no others break the partition. */
  lemma KeptUnlessHarmful<P>(p: Pool<P>, op: Op<P>)
    requires p.Valid() && Possible(p, op)
    ensures Apply(p, op).Valid() <==> !Harmful(p, op)
    ensures op.Alloc? ==> p.free[0] in p.free
  {
    var q := Apply(p, op);
    match op
    case Alloc =>
      assert p.free[0] in p.free;
      assert forall id :: id in p.free ==> id == p.free[0] || id in p.free[1..];
    case Free(id) => FreeKeepsIffHeld(p, id);
    case _ =>
      if op.id in p.free {
        assert op.id in q.free;
      }
  }

  /** Giving back an id in range keeps the partition if and only if the id is held. */
  lemma FreeKeepsIffHeld<P>(p: Pool<P>, id: nat)
    requires p.Valid() && id < |p.blocks|
    ensures Apply(p, Free(id)).Valid() <==> id in p.held
  {
    var q := Apply(p, Free(id));
    assert forall x :: x in q.free <==> x in p.free || x == id;
    if id in p.free {
      var i :| 0 <= i < |p.free| && p.free[i] == id;
      assert q.free[i] == q.free[|p.free|];
    }
  }

  /** When an id is given back twice, by its holder and by somebody who claimed it without its being published,
      the queue ends with the id twice: the partition is broken, whatever else is in the pool. */
  lemma FreedTwice<P>(p: Pool<P>, id: nat)
    requires p.Valid() && id in p.held
    ensures id < |p.blocks|
    ensures var q := Apply(Apply(p, Free(id)), Free(id)); !q.Valid() && q.free == p.free + [id, id]
  {
    FreeKeepsIffHeld(p, id);
    FreeKeepsIffHeld(Apply(p, Free(id)), id);
  }

  /** A run of allowed operations. */
  ghost predicate Runs<P>(ps: seq<Pool<P>>, ops: seq<Op<P>>) {
    && |ps| == |ops| + 1
    && forall i :: 0 <= i < |ops| ==> Allowed(ps[i], ops[i]) && ps[i + 1] == Apply(ps[i], ops[i])
  }

  /** Whatever allowed operations are performed on a valid pool, every pool on the way is valid. */
  lemma {:induction false} RunsStayValid<P>(ps: seq<Pool<P>>, ops: seq<Op<P>>, n: nat)
    requires Runs(ps, ops) && ps[0].Valid() && n < |ps|
    ensures ps[n].Valid() && |ps[n].blocks| == |ps[0].blocks|
  {
    if n > 0 {
      RunsStayValid(ps, ops, n - 1);
      ApplyKeepsValid(ps[n - 1], ops[n - 1]);
    }
  }

  /** `new`: two slots per core, all empty and free, queued from the highest id down. */
  function NewPool<P>(cores: nat): Pool<P> {
    Pool(seq(2 * cores, _ => None), seq(2 * cores, i requires 0 <= i < 2 * cores => 2 * cores - 1 - i), {}, {})
  }

  lemma NewPoolValid<P>(cores: nat)
    ensures NewPool<P>(cores).Valid()
  {
    var p := NewPool<P>(cores);
    forall id: nat | id < 2 * cores
      ensures id in p.free
    {
      assert p.free[2 * cores - 1 - id] == id;
    }
  }

  /** The ids below n. */
  function Range(n: nat): (r: set<nat>)
    ensures |r| == n && forall id: nat :: id in r <==> id < n
  {
    if n == 0 then {} else Range(n - 1) + {n - 1}
  }

  function Elements(s: seq<nat>): set<nat> {
    set id | id in s
  }

  lemma {:induction false} DistinctElements(s: seq<nat>)
    requires forall i, j :: 0 <= i < j < |s| ==> s[i] != s[j]
    ensures |Elements(s)| == |s|
  {
    if s != [] {
      var n := |s| - 1;
      DistinctElements(s[..n]);
      assert s == s[..n] + [s[n]];
      assert Elements(s) == Elements(s[..n]) + {s[n]};
    }
  }

  /** The sets of ids of a valid pool are disjoint and add up to all its ids. */
  lemma ValidIsPartition<P>(p: Pool<P>)
    requires p.Valid()
    ensures Elements(p.free) + p.held + p.published == Range(|p.blocks|)
    ensures |p.free| + |p.held| + |p.published| == |p.blocks|
  {
    hide Range;
    DistinctElements(p.free);
    DisjointSizes(Elements(p.free), p.held, p.published);
  }

  lemma DisjointSizes(a: set<nat>, b: set<nat>, c: set<nat>)
    requires a !! b && (a + b) !! c
    ensures |a + b + c| == |a| + |b| + |c|
  {
  }

  /** No id is ever lost or doubled. In every state of every run of allowed operations on a new pool, the ids below
      twice the number of cores are each free, held or published, in one of these ways only and free at most once. */
  lemma IdsArePartitioned<P>(cores: nat, ps: seq<Pool<P>>, ops: seq<Op<P>>, n: nat)
    requires Runs(ps, ops) && ps[0] == NewPool(cores) && n < |ps|
    ensures var p := ps[n];
            && Elements(p.free) + p.held + p.published == Range(2 * cores)
            && |p.free| + |p.held| + |p.published| == 2 * cores
  {
    hide Runs, Elements, Range;
    NewPoolValid<P>(cores);
    RunsStayValid(ps, ops, n);
    ValidIsPartition(ps[n]);
  }

  /** The operation changes the contents or the ownership of a slot. */
  predicate Touches<P>(op: Op<P>, id: nat) {
    (op.Write? || op.Read? || op.Free?) && op.id == id
  }

  /** What a handle wrote stays in its slot, through publishing and claiming and whatever happens to other
      slots, until somebody holding it writes, reads or frees it. */
  lemma {:induction false} LastWriteStays<P>(ps: seq<Pool<P>>, ops: seq<Op<P>>, id: nat, v: P, n: nat)
    requires Runs(ps, ops) && ps[0].Valid() && 1 <= n < |ps| && ops[0] == Write(id, v)
    requires forall i :: 1 <= i < n ==> !Touches(ops[i], id)
    ensures id < |ps[n].blocks| && ps[n].blocks[id] == Some(v) && id !in ps[n].free
  {
    if n == 1 {
      assert id in ps[0].held && ps[1] == Apply(ps[0], ops[0]);
    } else {
      RunsStayValid(ps, ops, n - 1);
      LastWriteStays(ps, ops, id, v, n - 1);
      assert ps[n] == Apply(ps[n - 1], ops[n - 1]);
    }
  }

  // ---- The pool ----

  class BufHandle<P> {
    const pool: BlockPool<P>
    const id: nat
    var released: bool

    constructor (pool: BlockPool<P>, id: nat)
      ensures this.pool == pool && this.id == id && !released
    {
      this.pool, this.id := pool, id;
      released := false;
    }

    /** The handle is marked released exactly when it no longer owns its id. */
    ghost predicate Valid()
      reads this, pool
    {
      released <==> !(id in pool.owner && pool.owner[id] == this)
    }
  }

  class BlockPool<P> {
    var blocks: seq<Option<P>>
    var free: seq<nat>
    ghost var owner: map<nat, BufHandle<P>>
    ghost var published: set<nat>

    ghost function Current(): Pool<P>
      reads this
    {
      Pool(blocks, free, owner.Keys, published)
    }

    ghost predicate Valid()
      reads this
    {
      Current().Valid() && forall id :: id in owner ==> owner[id].id == id && owner[id].pool == this
    }

    /** Two slots per core. The ids are queued from the highest down, so the first one allocated is the
        highest. */
    constructor (cores: nat)
      ensures Valid() && Current() == NewPool(cores)
      ensures |free| == 2 * cores && forall i :: 0 <= i < |free| ==> free[i] == 2 * cores - 1 - i
    {
      blocks := seq(2 * cores, _ => None);
      free := seq(2 * cores, i requires 0 <= i < 2 * cores => 2 * cores - 1 - i);
      owner, published := map[], {};
      new;
      NewPoolValid<P>(cores);
      assert Current() == NewPool(cores);
    }

    /** `alloc`. */
    method Allocate() returns (h: Option<BufHandle<P>>)
      modifies this
      ensures old(Valid()) ==> Valid()
      ensures h.None? <==> old(free) == []
      ensures h.None? ==> Current() == old(Current()) && owner == old(owner)
      ensures h.Some? ==>
                && fresh(h.value) && h.value.pool == this && h.value.Valid() && !h.value.released
                && h.value.id == old(free)[0] && owner == old(owner)[h.value.id := h.value]
                && Current() == Apply(old(Current()), Alloc)
                && (old(Valid()) ==> h.value.id < |blocks| && blocks[h.value.id] == None)
    {
      if free == [] {
        return None;
      }
      if Current().Valid() {
        ApplyKeepsValid(Current(), Alloc);
      }
      var id := free[0];
      free := free[1..];
      var b := new BufHandle(this, id);
      owner := owner[id := b];
      h := Some(b);
      assert Current() == Apply(old(Current()), Alloc);
    }

    /** `BufHandle::write`; a slot out of range is a panic. */
    method WriteTo(h: BufHandle<P>, value: P) returns (ok: bool)
      requires h.pool == this
      modifies this`blocks
      ensures ok <==> h.id < |old(blocks)|
      ensures !ok ==> Current() == old(Current())
      ensures ok ==> Current() == Apply(old(Current()), Write(h.id, value))
      ensures ok && old(Valid()) ==> (Valid() <==> h.id !in free)
    {
      ok := h.id < |blocks|;
      if ok {
        if Current().Valid() {
          KeptUnlessHarmful(Current(), Write(h.id, value));
        }
        blocks := blocks[h.id := Some(value)];
      }
    }

    /** `BufHandle::read`; an empty slot or one out of range is a panic. */
    method ReadFrom(h: BufHandle<P>) returns (value: Option<P>)
      requires h.pool == this
      modifies this`blocks
      ensures old(Valid()) ==> Valid()
      ensures value == if h.id < |old(blocks)| then old(blocks)[h.id] else None
      ensures h.id < |old(blocks)| ==> Current() == Apply(old(Current()), Read(h.id))
      ensures h.id >= |old(blocks)| ==> Current() == old(Current())
    {
      if h.id >= |blocks| {
        return None;
      }
      if Current().Valid() {
        KeptUnlessHarmful(Current(), Read(h.id));
      }
      value := blocks[h.id];
      blocks := blocks[h.id := None];
    }

    /** `BufHandle::into_id`: the slot stays live without a handle. */
    method IntoId(h: BufHandle<P>) returns (id: nat)
      requires Valid() && h.pool == this && h.Valid() && !h.released
      modifies this, h
      ensures Valid() && h.Valid() && h.released && id == h.id && owner == old(owner) - {id}
      ensures Current() == Apply(old(Current()), Publish(h.id))
    {
      ApplyKeepsValid(Current(), Publish(h.id));
      h.released := true;
      id := h.id;
      owner := owner - {id};
      published := published + {id};
      assert Current() == Apply(old(Current()), Publish(h.id));
    }

    /** `claim`: refuses only an id out of range. The handle it returns owns its slot exactly when the id was
        published and not yet claimed, which the source leaves to its callers. */
    method ClaimId(id: nat) returns (h: Option<BufHandle<P>>)
      modifies this
      ensures old(Valid()) ==> Valid()
      ensures h.None? <==> id >= |old(blocks)|
      ensures h.Some? ==> fresh(h.value) && h.value.pool == this && h.value.id == id && !h.value.released
      ensures h.Some? ==> (h.value.Valid() <==> id in old(published))
      ensures h.Some? && id in old(published) ==> owner == old(owner)[id := h.value] && Current() == Apply(old(Current()), Claim(id))
      ensures h.None? || id !in old(published) ==> owner == old(owner) && Current() == old(Current())
    {
      if id >= |blocks| {
        return None;
      }
      var b := new BufHandle(this, id);
      h := Some(b);
      if id in published {
        if Current().Valid() {
          ApplyKeepsValid(Current(), Claim(id));
        }
        owner := owner[id := b];
        published := published - {id};
        assert Current() == Apply(old(Current()), Claim(id));
      }
    }

    /** The handle is the one behind its id. */
    ghost predicate Owns(h: BufHandle<P>)
      reads this
    {
      h.id in owner && owner[h.id] == h
    }

    /** `BlockPool::free` on behalf of a handle; an id out of range is a panic. Nobody asks whether the handle owns
        its slot: the pool stays valid if and only if it does. */
    method Release(h: BufHandle<P>) returns (ok: bool)
      requires h.pool == this
      modifies this, h
      ensures h.released
      ensures ok <==> h.id < |old(blocks)|
      ensures !ok ==> Current() == old(Current()) && owner == old(owner)
      ensures ok ==> && blocks == old(blocks)[h.id := None] && free == old(free) + [h.id] && published == old(published)
                     && owner == if old(Owns(h)) then old(owner) - {h.id} else old(owner)
      ensures ok && old(Owns(h)) ==> Current() == Apply(old(Current()), Free(h.id)) && h.Valid()
      ensures ok && old(Valid()) ==> (Valid() <==> old(Owns(h)))
    {
      h.released := true;
      ok := h.id < |blocks|;
      if ok {
        ghost var p := Current();
        if p.Valid() {
          FreeKeepsIffHeld(p, h.id);
        }
        blocks := blocks[h.id := None];
        free := free + [h.id];
        if Owns(h) {
          owner := owner - {h.id};
          assert Current() == Apply(p, Free(h.id));
        } else if p.Valid() {
          StillHeld(p, h.id);
        }
      }
    }

    /** `Drop`: a released handle does nothing, any other gives its slot back. So a slot is freed once by each handle,
        and only once if no handle was claimed for it while another was live. */
    method Drop(h: BufHandle<P>) returns (ok: bool)
      requires h.pool == this
      modifies this, h
      ensures h.released
      ensures ok <==> old(h.released) || h.id < |old(blocks)|
      ensures old(h.released) || !ok ==> Current() == old(Current()) && owner == old(owner)
      ensures ok && !old(h.released) ==>
                && blocks == old(blocks)[h.id := None] && free == old(free) + [h.id] && published == old(published)
                && owner == if old(Owns(h)) then old(owner) - {h.id} else old(owner)
      ensures ok && !old(h.released) && old(Owns(h)) ==> Current() == Apply(old(Current()), Free(h.id)) && h.Valid()
      ensures ok && old(Valid()) ==> (Valid() <==> old(h.released) || old(Owns(h)))
    {
      ok := true;
      if !h.released {
        ok := Release(h);
      }
    }

    /** `is_free`: the scan empties the queue and refills it from the back, which reverses it. */
    method IsFree(id: nat) returns (found: bool)
      requires Valid()
      modifies this`free
      ensures Valid() && found == (id in old(free))
      ensures |free| == |old(free)|
      ensures id < |blocks| ==> forall i :: 0 <= i < |free| ==> free[i] == old(free)[|free| - 1 - i]
      ensures free == old(free) <==> id >= |blocks| || |old(free)| <= 1
    {
      if id >= |blocks| {
        return false;
      }
      var tmp;
      found, tmp := Scan(id);
      Refill(tmp);
      ReversedIsValid(old(Current()), free);
      ReversedIsSame(old(free), free);
    }

    /** Pops everything, looking for id. */
    method Scan(id: nat) returns (found: bool, tmp: seq<nat>)
      modifies this`free
      ensures free == [] && tmp == old(free) && found == (id in tmp)
    {
      found, tmp := false, [];
      while free != []
        invariant tmp + free == old(free)
        invariant found <==> id in tmp
        decreases |free|
      {
        found := found || free[0] == id;
        tmp, free := tmp + [free[0]], free[1..];
      }
    }

    /** Pushes a list back, last entry first. */
    method Refill(tmp: seq<nat>)
      requires free == []
      modifies this`free
      ensures |free| == |tmp| && forall i :: 0 <= i < |free| ==> free[i] == tmp[|tmp| - 1 - i]
    {
      for k := 0 to |tmp|
        invariant |free| == k && forall i :: 0 <= i < k ==> free[i] == tmp[|tmp| - 1 - i]
      {
        free := free + [tmp[|tmp| - 1 - k]];
      }
    }
  }

  /** Freeing a slot that nobody gave up leaves it free and in use, or free twice. */
  lemma StillHeld<P>(p: Pool<P>, id: nat)
    requires p.Valid() && id < |p.blocks|
    ensures !p.(blocks := p.blocks[id := None], free := p.free + [id]).Valid()
  {
    var q := p.(blocks := p.blocks[id := None], free := p.free + [id]);
    assert q.free[|p.free|] == id;
    if id in p.free {
      var i :| 0 <= i < |p.free| && p.free[i] == id;
      assert q.free[i] == q.free[|p.free|];
    }
  }

  lemma ReversedIsValid<P>(p: Pool<P>, free: seq<nat>)
    requires p.Valid() && |free| == |p.free| && forall i :: 0 <= i < |free| ==> free[i] == p.free[|free| - 1 - i]
    ensures p.(free := free).Valid()
  {
    forall id | id in p.free
      ensures id in free
    {
      var i :| 0 <= i < |free| && p.free[i] == id;
      assert free[|free| - 1 - i] == id;
    }
    assert forall id :: id in free ==> id in p.free;
  }

  /** A queue without duplicates is its own reversal only if it has at most one entry. */
  lemma ReversedIsSame(s: seq<nat>, r: seq<nat>)
    requires forall i, j :: 0 <= i < j < |s| ==> s[i] != s[j]
    requires |r| == |s| && forall i :: 0 <= i < |r| ==> r[i] == s[|s| - 1 - i]
    ensures r == s <==> |s| <= 1
  {
    if |s| > 1 {
      assert r[0] == s[|s| - 1] && s[0] != s[|s| - 1];
    }
  }

  /** A new pool of one core: asking whether an id is free changes which one is handed out next. */
  method OrderIsLost<P>() returns (before: seq<nat>, found: bool, after: seq<nat>)
    ensures before == [1, 0] && found && after == [0, 1]
  {
    var pool := new BlockPool<P>(1);
    before := pool.free;
    assert before == [1, 0];
    found := pool.IsFree(0);
    after := pool.free;
    assert after[0] == before[1] && after[1] == before[0];
  }

  /** In any valid pool: claiming an id and giving it back keeps the pool valid if and only if the id was published. */
  method ClaimThenDrop<P>(pool: BlockPool<P>, id: nat)
    requires pool.Valid() && id < |pool.blocks|
    modifies pool
    ensures pool.Valid() <==> id in old(pool.published)
  {
    var h := pool.ClaimId(id);
    assert pool.Owns(h.value) <==> id in old(pool.published);
    var ok := pool.Drop(h.value);
  }

  /** In any valid pool: a slot that is claimed while its owner still holds it is given back twice, and no longer
      belongs to either. */
  method ClaimedWhileHeld<P>(pool: BlockPool<P>, h: BufHandle<P>)
    requires pool.Valid() && h.pool == pool && pool.Owns(h) && !h.released
    modifies pool, h
    ensures !pool.Valid() && pool.free == old(pool.free) + [h.id, h.id] && h.id !in pool.owner
  {
    var g := pool.ClaimId(h.id);
    var ok := pool.Drop(h);
    ok := pool.Drop(g.value);
  }

  /** A new pool of one core: after that, two handles for one slot are handed out, both of them live. */
  method HandedOutTwice<P>() returns (first: BufHandle<P>, second: BufHandle<P>)
    ensures first != second && first.pool == second.pool && first.id == second.id == 1 && !first.released && !second.released
  {
    var pool := new BlockPool<P>(1);
    var h := pool.Allocate();
    assert pool.free == [0];
    ClaimedWhileHeld(pool, h.value);
    assert pool.free == [0, 1, 1];
    var other := pool.Allocate();
    assert pool.free == [1, 1];
    first, second := TakeTwo(pool);
  }

  method TakeTwo<P>(pool: BlockPool<P>) returns (first: BufHandle<P>, second: BufHandle<P>)
    requires |pool.free| >= 2
    modifies pool
    ensures first.pool == second.pool == pool && first != second && !first.released && !second.released
    ensures first.id == old(pool.free[0]) && second.id == old(pool.free[1])
  {
    var a := pool.Allocate();
    var b := pool.Allocate();
    first, second := a.value, b.value;
  }
}
