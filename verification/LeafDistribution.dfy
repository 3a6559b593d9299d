/** How the leaf producer of the parallel tree hands out leaves (`LeafProducer::spawn` in
    nova/src/parallel_tree/scheduler.rs). */
module LeafDistribution {

  /** The worker for a leaf, of `leaves` leaves and `workers` workers. */
  function WorkerFor(leaf: nat, leaves: nat, workers: nat): nat
    requires leaves >= 1 && workers >= 1
  {
    var w := leaf * workers / leaves;
    if w < workers - 1 then w else workers - 1
  }

  /** The first leaf of a worker: w * leaves / workers, rounded up. */
  function Start(w: nat, leaves: nat, workers: nat): nat
    requires workers >= 1
  {
    (w * leaves + workers - 1) / workers
  }

  // ---- Division ----

  lemma MulOrder(a: int, b: int, c: int)
    requires c > 0
    ensures a < b ==> a * c < b * c
    ensures a <= b ==> a * c <= b * c
  {
  }

  lemma Divided(x: nat, d: nat)
    requires d >= 1
    ensures x / d * d <= x < (x / d + 1) * d
  {
    var q, r := x / d, x % d;
    assert x == d * q + r;
    assert (q + 1) * d == q * d + d;
  }

  /** The quotient is the q with q * d <= x < (q + 1) * d. */
  lemma QuotientIs(x: nat, d: nat, q: nat)
    requires d >= 1
    ensures x / d == q <==> q * d <= x < (q + 1) * d
  {
    Divided(x, d);
    var p := x / d;
    if p < q {
      MulOrder(p + 1, q, d);
    } else if q < p {
      MulOrder(q + 1, p, d);
    }
  }

  lemma RoundedUp(x: nat, d: nat, r: nat)
    requires d >= 1
    ensures (x + d - 1) / d <= r <==> x <= r * d
  {
    var p := (x + d - 1) / d;
    Divided(x + d - 1, d);
    assert (p + 1) * d == p * d + d;
    if p <= r {
      MulOrder(p, r, d);
    } else {
      MulOrder(r + 1, p, d);
      assert (r + 1) * d == r * d + d;
    }
  }

  // ---- Chunks ----

  /** A worker's leaves are the contiguous chunk between its start and the next one's. */
  lemma WorkerIsChunk(leaf: nat, leaves: nat, workers: nat, w: nat)
    requires leaf < leaves && workers >= 1
    ensures WorkerFor(leaf, leaves, workers) < workers
    ensures WorkerFor(leaf, leaves, workers) == w <==> w < workers && Start(w, leaves, workers) <= leaf < Start(w + 1, leaves, workers)
  {
    hide Start;
    var x := leaf * workers;
    MulOrder(leaf, leaves, workers);
    Commute(leaves, workers);
    QuotientIs(x, leaves, w);
    Divided(x, leaves);
    if x / leaves >= workers {
      MulOrder(workers, x / leaves, leaves);
    }
    StartAtMost(w, leaves, workers, leaf);
    StartAtMost(w + 1, leaves, workers, leaf);
  }

  lemma Commute(a: int, b: int)
    ensures a * b == b * a
  {
  }

  lemma StartAtMost(w: nat, leaves: nat, workers: nat, leaf: nat)
    requires workers >= 1
    ensures Start(w, leaves, workers) <= leaf <==> w * leaves <= leaf * workers
  {
    RoundedUp(w * leaves, workers, leaf);
  }

  /** The chunks follow one another, start at zero and end at the last leaf. */
  lemma ChunksCover(leaves: nat, workers: nat, w: nat)
    requires workers >= 1
    ensures Start(0, leaves, workers) == 0 && Start(workers, leaves, workers) == leaves
    ensures Start(w, leaves, workers) <= Start(w + 1, leaves, workers)
  {
    StartAtMost(0, leaves, workers, 0);
    StartAtMost(workers, leaves, workers, leaves);
    Commute(leaves, workers);
    if leaves > 0 {
      StartAtMost(workers, leaves, workers, leaves - 1);
      MulOrder(leaves - 1, leaves, workers);
    }
    var s := Start(w + 1, leaves, workers);
    StartAtMost(w + 1, leaves, workers, s);
    assert w * leaves <= (w + 1) * leaves;
    StartAtMost(w, leaves, workers, s);
  }

  lemma SumTimes(a: int, b: int, c: int)
    ensures (a + b) * c == a * c + b * c
    ensures (a - b) * c == a * c - b * c
  {
  }

  lemma NextMultiple(w: nat, leaves: nat)
    ensures (w + 1) * leaves == w * leaves + leaves
  {
  }

  lemma ChunkAtMost(leaves: nat, workers: nat, w: nat, q: nat)
    requires workers >= 1 && leaves < (q + 1) * workers
    ensures Start(w + 1, leaves, workers) <= Start(w, leaves, workers) + q + 1
  {
    hide Start;
    var s := Start(w, leaves, workers);
    StartAtMost(w, leaves, workers, s);
    NextMultiple(w, leaves);
    SumTimes(s, q + 1, workers);
    StartAtMost(w + 1, leaves, workers, s + (q + 1));
  }

  lemma ChunkAtLeast(leaves: nat, workers: nat, w: nat, q: nat)
    requires workers >= 1 && q * workers <= leaves
    ensures Start(w, leaves, workers) + q <= Start(w + 1, leaves, workers)
  {
    hide Start;
    var t := Start(w + 1, leaves, workers);
    StartAtMost(w + 1, leaves, workers, t);
    NextMultiple(w, leaves);
    NotNegative(w, leaves);
    SumTimes(t, q, workers);
    if t < q {
      MulOrder(t - q, 0, workers);
    } else {
      StartAtMost(w, leaves, workers, t - q);
    }
  }

  lemma NotNegative(a: nat, b: nat)
    ensures a * b >= 0
  {
  }

  /** Every chunk has q entries or one more, where q is the quotient of leaves by workers. */
  lemma ChunkSizes(leaves: nat, workers: nat, w: nat, q: nat)
    requires workers >= 1 && q * workers <= leaves < (q + 1) * workers
    ensures q <= Start(w + 1, leaves, workers) - Start(w, leaves, workers) <= q + 1
  {
    hide Start;
    ChunkAtMost(leaves, workers, w, q);
    ChunkAtLeast(leaves, workers, w, q);
  }

  // ---- The producer loop ----

  /** The pairs (leaf, node index) for the leaves from a up to b. */
  function Pairs<T>(stream: seq<T>, base: nat, a: nat, b: nat): seq<(T, nat)>
    requires b <= |stream|
  {
    if a < b then seq(b - a, i requires 0 <= i < b - a => (stream[a + i], base + a + i)) else []
  }

  function Min(a: nat, b: nat): nat {
    if a < b then a else b
  }

  /** The queue of worker w after the first n leaves. */
  function QueueOf<T>(stream: seq<T>, base: nat, leaves: nat, workers: nat, w: nat, n: nat): seq<(T, nat)>
    requires n <= |stream| && workers >= 1
  {
    Pairs(stream, base, Start(w, leaves, workers), Min(Start(w + 1, leaves, workers), n))
  }

  lemma QueueStep<T>(stream: seq<T>, base: nat, leaves: nat, workers: nat, w: nat, n: nat)
    requires n < |stream| && n < leaves && w < workers
    ensures QueueOf(stream, base, leaves, workers, w, n + 1)
         == QueueOf(stream, base, leaves, workers, w, n)
            + if WorkerFor(n, leaves, workers) == w then [(stream[n], base + n)] else []
  {
    WorkerIsChunk(n, leaves, workers, w);
    ChunksCover(leaves, workers, w);
    hide Start, WorkerFor;
  }

  /** The producer, when it is not stopped early: every leaf is queued once, with its node index, in
      contiguous chunks in the order of the stream; leaves beyond the tree are ignored. */
  method Distribute<T>(stream: seq<T>, base: nat, leaves: nat, workers: nat) returns (queues: seq<seq<(T, nat)>>)
    requires leaves >= 1 && workers >= 1
    ensures |queues| == workers
    ensures forall w :: 0 <= w < workers ==> queues[w] == QueueOf(stream, base, leaves, workers, w, Min(|stream|, leaves))
  {
    hide Start, WorkerFor;
    queues := seq(workers, _ => []);
    var next := base;
    var n := 0;
    while n < |stream|
      invariant n <= |stream| && n <= leaves && next == base + n && |queues| == workers
      invariant forall w :: 0 <= w < workers ==> queues[w] == QueueOf(stream, base, leaves, workers, w, n)
    {
      if next >= base + leaves {
        break;
      }
      var w := WorkerFor(n, leaves, workers);
      WorkerIsChunk(n, leaves, workers, w);
      forall v | 0 <= v < workers
        ensures QueueOf(stream, base, leaves, workers, v, n + 1)
             == QueueOf(stream, base, leaves, workers, v, n) + if w == v then [(stream[n], base + n)] else []
      {
        QueueStep(stream, base, leaves, workers, v, n);
      }
      queues := queues[w := queues[w] + [(stream[n], next)]];
      next := next + 1;
      n := n + 1;
    }
  }
}
