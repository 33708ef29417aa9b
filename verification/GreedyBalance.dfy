/** Giving each chunk to the queue with the smallest score keeps the queues within one chunk
    of each other (sansa/src/common/scheduler.cc:133-214). */
module GreedyBalance {
  import opened Arithmetic
  import opened Scan
  import opened Queues

  ghost predicate LeastLoaded(work: seq<nat>, owner: seq<nat>, n: nat, q: nat)
    requires |owner| <= |work|
  {
    q < n && forall j :: 0 <= j < n ==> Load(work, owner, q) <= Load(work, owner, j)
  }

  /** The first n chunks go to the queues in turn, every later one to the first queue of least load. */
  ghost predicate IsNext(work: seq<nat>, owner: seq<nat>, n: nat, q: nat)
    requires |owner| <= |work|
  {
    if |owner| < n then q == |owner|
    else LeastLoaded(work, owner, n, q) && forall j :: 0 <= j < q ==> Load(work, owner, q) < Load(work, owner, j)
  }

  ghost predicate Greedy(work: seq<nat>, owner: seq<nat>, n: nat) {
    |owner| <= |work| && forall c :: 0 <= c < |owner| ==> IsNext(work, owner[..c], n, owner[c])
  }

  lemma GreedyPrefix(work: seq<nat>, owner: seq<nat>, n: nat, c: nat)
    requires Greedy(work, owner, n) && c <= |owner|
    ensures Greedy(work, owner[..c], n)
  {
    forall d | 0 <= d < c ensures IsNext(work, owner[..c][..d], n, owner[..c][d]) {
      assert owner[..c][..d] == owner[..d];
    }
  }

  lemma GreedyNext(work: seq<nat>, owner: seq<nat>, n: nat, x: nat)
    requires Greedy(work, owner, n) && |owner| < |work| && IsNext(work, owner, n, x)
    ensures Greedy(work, owner + [x], n)
  {
    var longer := owner + [x];
    forall c | 0 <= c < |longer| ensures IsNext(work, longer[..c], n, longer[c]) {
      assert longer[..c] == owner[..c];
      if c == |owner| {
        assert owner[..c] == owner;
      }
    }
  }

  /** Greedy leaves no choice: the assignment is determined by the work of the chunks. */
  lemma {:induction false} GreedyUnique(work: seq<nat>, a: seq<nat>, b: seq<nat>, n: nat)
    requires Greedy(work, a, n) && Greedy(work, b, n) && |a| == |b|
    ensures a == b
  {
    if a != [] {
      var c := |a| - 1;
      GreedyPrefix(work, a, n, c);
      GreedyPrefix(work, b, n, c);
      GreedyUnique(work, a[..c], b[..c], n);
      assert IsNext(work, a[..c], n, a[c]) && IsNext(work, b[..c], n, b[c]);
      assert a[c] == b[c];
      assert a == a[..c] + [a[c]] && b == b[..c] + [b[c]];
    }
  }

  lemma GreedyInRange(work: seq<nat>, owner: seq<nat>, n: nat)
    requires Greedy(work, owner, n)
    ensures forall c :: 0 <= c < |owner| ==> owner[c] < n
  {
    forall c | 0 <= c < |owner| ensures owner[c] < n {
      assert IsNext(work, owner[..c], n, owner[c]);
    }
  }

  /** In the first round, too, the next queue is one of least load: it is empty. */
  lemma NextIsLeast(work: seq<nat>, owner: seq<nat>, n: nat, q: nat)
    requires Greedy(work, owner, n) && IsNext(work, owner, n, q)
    ensures LeastLoaded(work, owner, n, q)
  {
    if |owner| < n {
      forall c | 0 <= c < |owner| ensures owner[c] != q {
        assert IsNext(work, owner[..c], n, owner[c]);
      }
      NothingOwned(work, owner, q);
    }
  }

  /** No two queues are further apart than the largest chunk. */
  lemma {:induction false} Balanced(work: seq<nat>, owner: seq<nat>, n: nat, largest: nat, i: nat, j: nat)
    requires Greedy(work, owner, n) && i < n && j < n
    requires forall c :: 0 <= c < |owner| ==> work[c] <= largest
    ensures Load(work, owner, i) <= Load(work, owner, j) + largest
    decreases |owner|
  {
    if owner != [] {
      var c := |owner| - 1;
      GreedyPrefix(work, owner, n, c);
      Balanced(work, owner[..c], n, largest, i, j);
      assert IsNext(work, owner[..c], n, owner[c]);
      NextIsLeast(work, owner[..c], n, owner[c]);
      assert Load(work, owner[..c], owner[c]) <= Load(work, owner[..c], j);
    }
  }

  /** After every step of the assignment. */
  lemma AlwaysBalanced(work: seq<nat>, owner: seq<nat>, n: nat, largest: nat)
    requires Greedy(work, owner, n)
    requires forall c :: 0 <= c < |owner| ==> work[c] <= largest
    ensures forall c, i, j :: 0 <= c <= |owner| && 0 <= i < n && 0 <= j < n ==>
              Load(work, owner[..c], i) <= Load(work, owner[..c], j) + largest
  {
    forall c, i, j | 0 <= c <= |owner| && 0 <= i < n && 0 <= j < n
      ensures Load(work, owner[..c], i) <= Load(work, owner[..c], j) + largest
    {
      GreedyPrefix(work, owner, n, c);
      Balanced(work, owner[..c], n, largest, i, j);
    }
  }

  lemma {:induction false} TotalAtLeast(work: seq<nat>, owner: seq<nat>, n: nat, largest: nat, i: nat, m: nat)
    requires Greedy(work, owner, n) && i < n && m <= n
    requires forall c :: 0 <= c < |owner| ==> work[c] <= largest
    ensures m * Load(work, owner, i) <= TotalLoad(work, owner, m) + (if i < m then m - 1 else m) * largest
    decreases m
  {
    if m > 0 {
      hide Load, Greedy;
      TotalAtLeast(work, owner, n, largest, i, m - 1);
      Balanced(work, owner, n, largest, i, m - 1);
      var x := Load(work, owner, i);
      assert m * x == (m - 1) * x + x;
      assert m * largest == (m - 1) * largest + largest;
      if i < m - 1 {
        assert (m - 1) * largest == (m - 2) * largest + largest;
      }
    }
  }

  // ---------- Chunks of tasks ----------

  function Chunks(total: nat, stride: nat): nat
    requires stride > 0
  {
    if total == 0 then 0 else (total - 1) / stride + 1
  }

  ghost function ChunkWork(work: seq<nat>, stride: nat, c: nat): nat
    requires stride > 0
  {
    MulMonotone(c, c + 1, stride);
    SumRange(work, BlockStart(|work|, stride, c), BlockStart(|work|, stride, c + 1))
  }

  /** The work of each chunk of `stride` tasks; the last may be smaller. */
  ghost function ChunkWorks(work: seq<nat>, stride: nat): seq<nat>
    requires stride > 0
  {
    seq(Chunks(|work|, stride), c requires 0 <= c => ChunkWork(work, stride, c))
  }

  /** Only the last chunk ends early. */
  lemma ChunksCover(total: nat, stride: nat, c: nat)
    requires stride > 0
    ensures c < Chunks(total, stride) <==> c * stride < total
    ensures total <= Chunks(total, stride) * stride
  {
    if total > 0 {
      var d := (total - 1) / stride;
      QuotientRange(total - 1, stride);
      if c <= d {
        MulMonotone(c, d, stride);
      } else {
        MulMonotone(d + 1, c, stride);
      }
    }
  }

  /** The owners of the tasks in the chunks given out so far. */
  ghost function TaskOwners(chunkOwner: seq<nat>, stride: nat, total: nat): (owner: seq<nat>)
    requires stride > 0
    ensures |owner| == BlockStart(total, stride, |chunkOwner|)
  {
    Owners(chunkOwner, stride, BlockStart(total, stride, |chunkOwner|))
  }

  lemma StartBelow(total: nat, stride: nat, c: nat)
    ensures BlockStart(total, stride, c) <= c * stride
  {
  }

  lemma TaskOwnerAt(chunkOwner: seq<nat>, stride: nat, total: nat, e: nat)
    requires stride > 0 && e < BlockStart(total, stride, |chunkOwner|)
    ensures e / stride < |chunkOwner| && TaskOwners(chunkOwner, stride, total)[e] == chunkOwner[e / stride]
  {
    hide BlockStart;
    StartBelow(total, stride, |chunkOwner|);
    QuotientBound(e, stride, |chunkOwner|);
  }

  lemma TaskOwnersFrom(chunkOwner: seq<nat>, stride: nat, total: nat)
    requires stride > 0
    ensures forall q :: q in TaskOwners(chunkOwner, stride, total) ==> q in chunkOwner
  {
    hide *;
    var owner := TaskOwners(chunkOwner, stride, total);
    forall q | q in owner ensures q in chunkOwner {
      var e :| 0 <= e < |owner| && owner[e] == q;
      TaskOwnerAt(chunkOwner, stride, total, e);
    }
  }

  lemma NextChunk(chunkOwner: seq<nat>, stride: nat, total: nat, x: nat)
    requires stride > 0 && |chunkOwner| < Chunks(total, stride)
    ensures var begin, end := BlockStart(total, stride, |chunkOwner|), BlockStart(total, stride, |chunkOwner| + 1);
            begin == |chunkOwner| * stride && begin <= end <= begin + stride && begin < total
            && TaskOwners(chunkOwner + [x], stride, total)
               == TaskOwners(chunkOwner, stride, total) + Repeat(x, end - begin)
  {
    hide Chunks, Owners;
    var c := |chunkOwner|;
    ChunksCover(total, stride, c);
    assert (c + 1) * stride == c * stride + stride;
    OwnersNext(chunkOwner, stride, x, BlockStart(total, stride, c + 1) - c * stride);
  }

  lemma ChunkWorkIs(work: seq<nat>, stride: nat, c: nat)
    requires stride > 0 && c < Chunks(|work|, stride)
    ensures |ChunkWorks(work, stride)| == Chunks(|work|, stride)
    ensures BlockStart(|work|, stride, c) <= BlockStart(|work|, stride, c + 1) <= |work|
    ensures ChunkWorks(work, stride)[c] == SumRange(work, BlockStart(|work|, stride, c),
                                                    BlockStart(|work|, stride, c + 1))
  {
    MulMonotone(c, c + 1, stride);
  }

  lemma ChunkWorksLength(work: seq<nat>, stride: nat)
    requires stride > 0
    ensures |ChunkWorks(work, stride)| == Chunks(|work|, stride)
  {
  }

  lemma NoChunks(work: seq<nat>, stride: nat, q: nat)
    requires stride > 0
    ensures TaskOwners([], stride, |work|) == [] && BlockStart(|work|, stride, 0) == 0
    ensures Load(work, [], q) == 0 == Load(ChunkWorks(work, stride), [], q)
  {
  }

  /** A queue's load is the work of its tasks. */
  lemma {:induction false} LoadsOfTasks(work: seq<nat>, chunkOwner: seq<nat>, stride: nat, q: nat)
    requires stride > 0 && |chunkOwner| <= |ChunkWorks(work, stride)|
    ensures Load(ChunkWorks(work, stride), chunkOwner, q) == Load(work, TaskOwners(chunkOwner, stride, |work|), q)
    decreases |chunkOwner|
  {
    hide *;
    if chunkOwner == [] {
      NoChunks(work, stride, q);
    } else {
      var c := |chunkOwner| - 1;
      var front, x := chunkOwner[..c], chunkOwner[c];
      assert chunkOwner == front + [x];
      LoadsOfTasks(work, front, stride, q);
      ChunkWorksLength(work, stride);
      ChunkWorkIs(work, stride, c);
      NextChunk(front, stride, |work|, x);
      LoadChunk(work, TaskOwners(front, stride, |work|), x,
                BlockStart(|work|, stride, c + 1) - BlockStart(|work|, stride, c), q);
      LoadNext(ChunkWorks(work, stride), front, x, q);
    }
  }

  lemma {:induction false} TotalsOfTasks(work: seq<nat>, chunkOwner: seq<nat>, stride: nat, m: nat)
    requires stride > 0 && |chunkOwner| <= |ChunkWorks(work, stride)|
    ensures TotalLoad(ChunkWorks(work, stride), chunkOwner, m)
            == TotalLoad(work, TaskOwners(chunkOwner, stride, |work|), m)
    decreases m
  {
    hide Load, TaskOwners, ChunkWorks;
    if m > 0 {
      LoadsOfTasks(work, chunkOwner, stride, m - 1);
      TotalsOfTasks(work, chunkOwner, stride, m - 1);
    }
  }

  lemma AllGiven(work: seq<nat>, stride: nat, k: nat)
    requires stride > 0 && k == Chunks(|work|, stride)
    ensures BlockStart(|work|, stride, k) == |work|
  {
    ChunksCover(|work|, stride, k);
  }

  /** What a greedy assignment guarantees of the work in the queues: any two are within the largest chunk
      of each other, and the fullest is within (n - 1) / n of it from the average. */
  lemma QueuesBalanced(work: seq<nat>, chunkOwner: seq<nat>, stride: nat, n: nat, largest: nat, i: nat, j: nat)
    requires stride > 0 && Greedy(ChunkWorks(work, stride), chunkOwner, n) && |chunkOwner| == Chunks(|work|, stride)
    requires forall c :: 0 <= c < |ChunkWorks(work, stride)| ==> ChunkWorks(work, stride)[c] <= largest
    requires i < n && j < n
    ensures |TaskOwners(chunkOwner, stride, |work|)| == |work|
    ensures Load(work, TaskOwners(chunkOwner, stride, |work|), i)
            <= Load(work, TaskOwners(chunkOwner, stride, |work|), j) + largest
    ensures n * Load(work, TaskOwners(chunkOwner, stride, |work|), i) <= SumRange(work, 0, |work|) + (n - 1) * largest
  {
    hide *;
    var cw, owner := ChunkWorks(work, stride), TaskOwners(chunkOwner, stride, |work|);
    AllGiven(work, stride, |chunkOwner|);
    ChunkWorksLength(work, stride);
    LoadsOfTasks(work, chunkOwner, stride, i);
    LoadsOfTasks(work, chunkOwner, stride, j);
    Balanced(cw, chunkOwner, n, largest, i, j);
    TotalAtLeast(cw, chunkOwner, n, largest, i, n);
    TotalsOfTasks(work, chunkOwner, stride, n);
    GreedyInRange(cw, chunkOwner, n);
    TaskOwnersFrom(chunkOwner, stride, |work|);
    forall e | 0 <= e < |owner| ensures owner[e] < n {
      assert owner[e] in owner;
      assert owner[e] in chunkOwner;
    }
    TotalIsAll(work, owner, n);
  }

  /** The work of the largest chunk. */
  ghost predicate IsLargestChunk(work: seq<nat>, stride: nat, largest: nat)
    requires stride > 0
  {
    && (exists c :: 0 <= c < Chunks(|work|, stride) && ChunkWork(work, stride, c) == largest)
    && forall c :: 0 <= c < Chunks(|work|, stride) ==> ChunkWork(work, stride, c) <= largest
  }

  lemma {:induction false} LargestOf(s: seq<nat>) returns (x: nat)
    requires s != []
    ensures x in s && forall y :: y in s ==> y <= x
  {
    var last := |s| - 1;
    x := s[last];
    if last > 0 {
      var front := LargestOf(s[..last]);
      if front > x {
        x := front;
      }
      assert s == s[..last] + [s[last]];
    }
  }

  lemma LargestChunk(work: seq<nat>, stride: nat) returns (largest: nat)
    requires stride > 0 && work != []
    ensures IsLargestChunk(work, stride, largest)
    ensures forall c :: 0 <= c < |ChunkWorks(work, stride)| ==> ChunkWorks(work, stride)[c] <= largest
  {
    hide ChunkWork;
    var cw := ChunkWorks(work, stride);
    largest := LargestOf(cw);
    forall c | 0 <= c < |cw| ensures cw[c] == ChunkWork(work, stride, c) <= largest {
      assert cw[c] in cw;
    }
    var c :| 0 <= c < |cw| && cw[c] == largest;
    assert ChunkWork(work, stride, c) == largest;
  }

  /** The work given to each queue: any two are within the largest chunk of each other, and n times any of them is
      within n - 1 largest chunks of all the work. */
  ghost predicate QueuesEven(work: seq<nat>, owner: seq<nat>, n: nat, largest: nat)
    requires |owner| == |work|
  {
    && (forall i, j :: 0 <= i < n && 0 <= j < n ==> Load(work, owner, i) <= Load(work, owner, j) + largest)
    && forall i :: 0 <= i < n ==> n * Load(work, owner, i) <= SumRange(work, 0, |work|) + (n - 1) * largest
  }

  lemma GreedyIsEven(work: seq<nat>, chunkOwner: seq<nat>, stride: nat, n: nat, largest: nat)
    requires stride > 0 && n > 0 && Greedy(ChunkWorks(work, stride), chunkOwner, n)
    requires |chunkOwner| == Chunks(|work|, stride)
    requires forall c :: 0 <= c < |ChunkWorks(work, stride)| ==> ChunkWorks(work, stride)[c] <= largest
    ensures |TaskOwners(chunkOwner, stride, |work|)| == |work|
    ensures QueuesEven(work, TaskOwners(chunkOwner, stride, |work|), n, largest)
  {
    hide Greedy, ChunkWorks, TaskOwners, Load, SumRange;
    QueuesBalanced(work, chunkOwner, stride, n, largest, 0, 0);
    forall i: nat, j: nat | i < n && j < n
      ensures Load(work, TaskOwners(chunkOwner, stride, |work|), i)
              <= Load(work, TaskOwners(chunkOwner, stride, |work|), j) + largest
      ensures n * Load(work, TaskOwners(chunkOwner, stride, |work|), i)
              <= SumRange(work, 0, |work|) + (n - 1) * largest
    {
      QueuesBalanced(work, chunkOwner, stride, n, largest, i, j);
    }
  }

  lemma TaskOwnersAre(chunkOwner: seq<nat>, stride: nat, total: nat)
    requires stride > 0 && |chunkOwner| == Chunks(total, stride)
    ensures |TaskOwners(chunkOwner, stride, total)| == total
    ensures forall e :: 0 <= e < total ==>
              e / stride < |chunkOwner| && TaskOwners(chunkOwner, stride, total)[e] == chunkOwner[e / stride]
  {
    hide Chunks, BlockStart, TaskOwners;
    AllGiven(Repeat(0, total), stride, |chunkOwner|);
    forall e | 0 <= e < total
      ensures e / stride < |chunkOwner| && TaskOwners(chunkOwner, stride, total)[e] == chunkOwner[e / stride]
    {
      TaskOwnerAt(chunkOwner, stride, total, e);
    }
  }
}
