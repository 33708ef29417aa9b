/** Splitting the edge list over queues (sansa/src/common/scheduler.cc). */
module Scheduling {
  import opened Counting
  import opened Arithmetic
  import opened CsrGraph
  import opened Scan
  import opened Queues
  import opened GreedyBalance

  ghost predicate DealtTo(src_list: seq<nat>, dst_list: seq<nat>, owner: seq<nat>, q: nat, src: seq<nat>,
                          dst: seq<nat>) {
    && |owner| <= |src_list| == |dst_list|
    && src == Picked(src_list, owner, q) && dst == Picked(dst_list, owner, q)
  }

  /** Queue q holds exactly its tasks, in order, ends paired. */
  ghost predicate Dealt(src_list: seq<nat>, dst_list: seq<nat>, owner: seq<nat>, n: nat,
                        srcs: seq<seq<nat>>, dsts: seq<seq<nat>>, lens: seq<nat>) {
    && |owner| <= |src_list| == |dst_list|
    && |srcs| == |dsts| == |lens| == n
    && (forall e :: 0 <= e < |owner| ==> owner[e] < n)
    && forall q :: 0 <= q < n ==> DealtTo(src_list, dst_list, owner, q, srcs[q], dsts[q]) && lens[q] == |srcs[q]|
  }

  lemma HeldNext(owner: seq<nat>, x: nat)
    ensures Held(owner + [x], x) == Held(owner, x) + 1
  {
    LoadNext(Repeat(1, |owner| + 1), owner, x, x);
    LoadExtends(Repeat(1, |owner|), Repeat(1, |owner| + 1), owner, x);
  }

  /** The queues hold every task once: task e is at its place in the queue of owner[e], and there is nothing else. */
  lemma DealtIsExact(src_list: seq<nat>, dst_list: seq<nat>, owner: seq<nat>, n: nat,
                     srcs: seq<seq<nat>>, dsts: seq<seq<nat>>, lens: seq<nat>)
    requires Dealt(src_list, dst_list, owner, n, srcs, dsts, lens)
    ensures SumRange(lens, 0, n) == |owner|
    ensures forall e :: 0 <= e < |owner| ==>
              var q, k := owner[e], Held(owner[..e], owner[e]);
              k < |srcs[q]| == |dsts[q]| && srcs[q][k] == src_list[e] && dsts[q][k] == dst_list[e]
    ensures forall d, e :: 0 <= d < e < |owner| && owner[d] == owner[e] ==>
              Held(owner[..d], owner[d]) < Held(owner[..e], owner[e])
  {
    hide Picked, Held, SumRange;
    forall q | 0 <= q < n ensures lens[q] == Held(owner, q) {
      PickedLength(src_list, owner, q);
    }
    LensAddUp(lens, owner);
    forall e | 0 <= e < |owner|
      ensures var q, k := owner[e], Held(owner[..e], owner[e]);
              k < |srcs[q]| == |dsts[q]| && srcs[q][k] == src_list[e] && dsts[q][k] == dst_list[e]
    {
      TaskIsQueued(src_list, owner, e);
      TaskIsQueued(dst_list, owner, e);
      PickedLength(src_list, owner, owner[e]);
      PickedLength(dst_list, owner, owner[e]);
    }
    forall d, e | 0 <= d < e < |owner| && owner[d] == owner[e]
      ensures Held(owner[..d], owner[d]) < Held(owner[..e], owner[e])
    {
      HeldNext(owner[..d], owner[d]);
      assert owner[..e][..d + 1] == owner[..d] + [owner[d]];
      HeldPrefix(owner[..e], d + 1, owner[e]);
    }
  }

  /** One more chunk for queue x. */
  lemma DealtChunk(src_list: seq<nat>, dst_list: seq<nat>, owner: seq<nat>, x: nat, k: nat, q: nat, src: seq<nat>,
                   dst: seq<nat>)
    requires |owner| + k <= |src_list| == |dst_list| && DealtTo(src_list, dst_list, owner, q, src, dst)
    ensures |owner + Repeat(x, k)| == |owner| + k
    ensures if x == q then DealtTo(src_list, dst_list, owner + Repeat(x, k), q, src + src_list[|owner|..|owner| + k],
                                   dst + dst_list[|owner|..|owner| + k])
            else DealtTo(src_list, dst_list, owner + Repeat(x, k), q, src, dst)
  {
    PickedChunk(src_list, owner, x, k, q);
    PickedChunk(dst_list, owner, x, k, q);
  }

  lemma DealtNothing(src_list: seq<nat>, dst_list: seq<nat>, owner: seq<nat>, q: nat)
    requires |owner| <= |src_list| == |dst_list| && q !in owner
    ensures DealtTo(src_list, dst_list, owner, q, [], [])
  {
    NothingOwned(src_list, owner, q);
    NothingOwned(dst_list, owner, q);
  }

  // ---------- Workloads ----------

  /** The smaller degree of the two ends. */
  function WorkloadEstimate(g: Csr, src: nat, dst: nat): nat
    requires g.WellFormed() && src < g.V() && dst < g.V()
  {
    Min(g.Degree(src), g.Degree(dst))
  }

  ghost predicate ValidTasks(g: Csr, src_list: seq<nat>, dst_list: seq<nat>) {
    && g.WellFormed() && |src_list| == |dst_list|
    && forall e :: 0 <= e < |src_list| ==> src_list[e] < g.V() && dst_list[e] < g.V()
  }

  /** The estimated work of each task. */
  ghost function Workloads(g: Csr, src_list: seq<nat>, dst_list: seq<nat>): seq<nat>
    requires ValidTasks(g, src_list, dst_list)
  {
    seq(|src_list|, e requires 0 <= e < |src_list| => WorkloadEstimate(g, src_list[e], dst_list[e]))
  }

  /** The work of a task is the number of neighbours of one end, and of the other at most. */
  ghost predicate IsSmallerDegree(g: Csr, src: nat, dst: nat, w: nat)
    requires g.WellFormed() && src < g.V() && dst < g.V()
  {
    w <= |g.N(src)| && w <= |g.N(dst)| && (w == |g.N(src)| || w == |g.N(dst)|)
  }

  ghost predicate SmallerDegrees(g: Csr, src_list: seq<nat>, dst_list: seq<nat>, work: seq<nat>)
    requires ValidTasks(g, src_list, dst_list)
  {
    |work| == |src_list| && forall e :: 0 <= e < |work| ==> IsSmallerDegree(g, src_list[e], dst_list[e], work[e])
  }

  lemma EstimateIsSmallerDegree(g: Csr, src: nat, dst: nat)
    requires g.WellFormed() && src < g.V() && dst < g.V()
    ensures IsSmallerDegree(g, src, dst, WorkloadEstimate(g, src, dst))
  {
  }

  lemma WorkloadsAre(g: Csr, src_list: seq<nat>, dst_list: seq<nat>)
    requires ValidTasks(g, src_list, dst_list)
    ensures SmallerDegrees(g, src_list, dst_list, Workloads(g, src_list, dst_list))
  {
    hide WorkloadEstimate, IsSmallerDegree;
    forall e | 0 <= e < |src_list|
      ensures IsSmallerDegree(g, src_list[e], dst_list[e], WorkloadEstimate(g, src_list[e], dst_list[e]))
    {
      EstimateIsSmallerDegree(g, src_list[e], dst_list[e]);
    }
  }

  /** Each task's work is enough for the common neighbours of its ends. */
  ghost predicate CoversCommon(g: Csr, src_list: seq<nat>, dst_list: seq<nat>, work: seq<nat>)
    requires ValidTasks(g, src_list, dst_list)
  {
    |work| == |src_list| && forall e :: 0 <= e < |work| ==>
        |g.Adjacency()[src_list[e]] * g.Adjacency()[dst_list[e]]| <= work[e]
  }

  lemma CommonAtMost(g: Csr, src: nat, dst: nat, w: nat)
    requires g.Simple() && src < g.V() && dst < g.V() && IsSmallerDegree(g, src, dst, w)
    ensures |g.Adjacency()[src] * g.Adjacency()[dst]| <= w
  {
    var a, b := g.Adjacency()[src], g.Adjacency()[dst];
    NoDuplicatesCard(g.N(src));
    NoDuplicatesCard(g.N(dst));
    SubsetCard(a * b, a);
    SubsetCard(a * b, b);
  }

  lemma SmallerDegreesCover(g: Csr, src_list: seq<nat>, dst_list: seq<nat>, work: seq<nat>)
    requires ValidTasks(g, src_list, dst_list) && SmallerDegrees(g, src_list, dst_list, work)
    ensures g.Simple() ==> CoversCommon(g, src_list, dst_list, work)
  {
    hide IsSmallerDegree, Csr.Simple;
    if g.Simple() {
      forall e | 0 <= e < |work| ensures |g.Adjacency()[src_list[e]] * g.Adjacency()[dst_list[e]]| <= work[e] {
        CommonAtMost(g, src_list[e], dst_list[e], work[e]);
      }
    }
  }

  ghost predicate IsFirstSmallest(scores: seq<nat>, id: nat) {
    && id < |scores|
    && (forall j :: 0 <= j < |scores| ==> scores[id] <= scores[j])
    && forall j :: 0 <= j < id ==> scores[id] < scores[j]
  }

  method SmallestScoreId(n: nat, scores: array<nat>) returns (id: nat)
    requires n == scores.Length > 0
    ensures IsFirstSmallest(scores[..], id)
  {
    id := 0;
    var min_score := scores[0];
    for i := 1 to n
      invariant id < i && min_score == scores[id]
      invariant forall j :: 0 <= j < i ==> scores[id] <= scores[j]
      invariant forall j :: 0 <= j < id ==> scores[id] < scores[j]
    {
      if scores[i] < min_score {
        min_score := scores[i];
        id := i;
      }
    }
  }

  /** Adds the workloads of tasks begin..end to one score. */
  method AddWorkloads(g: Csr, src_list: seq<nat>, dst_list: seq<nat>, begin: nat, end: nat, scores: array<nat>, id: nat)
    requires ValidTasks(g, src_list, dst_list) && begin <= end <= |src_list| && id < scores.Length
    modifies scores
    ensures |Workloads(g, src_list, dst_list)| == |src_list|
    ensures scores[..] == old(scores[..])[id := old(scores[id])
                                          + SumRange(Workloads(g, src_list, dst_list), begin, end)]
  {
    hide WorkloadEstimate, Csr.WellFormed;
    ghost var work := Workloads(g, src_list, dst_list);
    assert forall e :: 0 <= e < |src_list| ==> work[e] == WorkloadEstimate(g, src_list[e], dst_list[e]);
    hide Workloads;
    for j := begin to end
      invariant scores[..] == old(scores[..])[id := old(scores[id]) + SumRange(work, begin, j)]
    {
      scores[id] := scores[id] + WorkloadEstimate(g, src_list[j], dst_list[j]);
    }
  }

  // ---------- The state of least_first ----------

  /** The scores are the loads. */
  ghost predicate Scored(work: seq<nat>, chunkOwner: seq<nat>, scores: seq<nat>) {
    |chunkOwner| <= |work| && forall q :: 0 <= q < |scores| ==> scores[q] == Load(work, chunkOwner, q)
  }

  lemma ScoredNext(work: seq<nat>, chunkOwner: seq<nat>, scores: seq<nat>, id: nat)
    requires Scored(work, chunkOwner, scores) && |chunkOwner| < |work| && id < |scores|
    ensures Scored(work, chunkOwner + [id], scores[id := scores[id] + work[|chunkOwner|]])
  {
    forall q | 0 <= q < |scores|
      ensures scores[id := scores[id] + work[|chunkOwner|]][q] == Load(work, chunkOwner + [id], q)
    {
      LoadNext(work, chunkOwner, id, q);
    }
  }

  lemma ScoredSmallestIsNext(work: seq<nat>, chunkOwner: seq<nat>, scores: seq<nat>, id: nat)
    requires Scored(work, chunkOwner, scores) && IsFirstSmallest(scores, id) && |chunkOwner| >= |scores|
    ensures IsNext(work, chunkOwner, |scores|, id)
  {
    hide Load;
  }

  lemma ScoredNothing(work: seq<nat>, scores: seq<nat>)
    requires forall q :: 0 <= q < |scores| ==> scores[q] == 0
    ensures Scored(work, [], scores)
  {
  }

  lemma AscendingNext(work: seq<nat>, i: nat, n: nat)
    requires Greedy(work, Ascending(i), n) && i < n && i < |work|
    ensures Ascending(i + 1) == Ascending(i) + [i] && Greedy(work, Ascending(i + 1), n)
  {
    assert Ascending(i + 1) == Ascending(i) + [i];
    GreedyNext(work, Ascending(i), n, i);
  }

  lemma AscendingStarts(work: seq<nat>, n: nat)
    ensures Ascending(0) == [] && Greedy(work, [], n)
  {
  }

  lemma AscendingOwners(stride: nat, total: nat, i: nat)
    requires stride > 0 && i <= Chunks(total, stride)
    ensures forall q :: q in TaskOwners(Ascending(i), stride, total) ==> q < i
    ensures |Ascending(i)| == i
  {
    hide TaskOwners, Chunks;
    TaskOwnersFrom(Ascending(i), stride, total);
  }

  /** A chunk that starts at b is full, or the last one. */
  lemma ChunkAt(total: nat, stride: nat, c: nat)
    requires stride > 0 && BlockStart(total, stride, c) < total
    ensures var b, e := BlockStart(total, stride, c), BlockStart(total, stride, c + 1);
            && c < Chunks(total, stride) && b == c * stride
            && (b + stride < total ==> e == b + stride)
            && (b + stride >= total ==> e == total && c + 1 == Chunks(total, stride))
  {
    hide Chunks;
    assert (c + 1) * stride == c * stride + stride;
    ChunksCover(total, stride, c);
    ChunksCover(total, stride, c + 1);
  }

  /** The chunks of the first round are full. */
  lemma FirstChunkAt(total: nat, stride: nat, n: nat, i: nat)
    requires stride > 0 && n * stride < total && i < n
    ensures BlockStart(total, stride, i) == i * stride
            && BlockStart(total, stride, i + 1) == i * stride + stride < total
    ensures (i + 1) * stride == i * stride + stride
    ensures i + 1 <= Chunks(total, stride)
  {
    hide Chunks;
    MulMonotone(i + 1, n, stride);
    assert (i + 1) * stride == i * stride + stride;
    ChunksCover(total, stride, i);
  }

  // ---------- Vectors ----------

  /** std::vector::resize: cut, or filled up with zeros. */
  function Resized(s: seq<nat>, k: nat): (r: seq<nat>)
    ensures |r| == k
  {
    if |s| >= k then s[..k] else s + Repeat(0, k - |s|)
  }

  function ResizedQueues(s: seq<seq<nat>>, n: nat): (r: seq<seq<nat>>)
    ensures |r| == n
  {
    if |s| >= n then s[..n] else s + seq(n - |s|, i => [])
  }

  /** std::copy to position at. */
  function Overwritten(s: seq<nat>, at: nat, xs: seq<nat>): (r: seq<nat>)
    requires at + |xs| <= |s|
    ensures |r| == |s|
  {
    s[..at] + xs + s[at + |xs|..]
  }

  lemma OverwrittenWhole(s: seq<nat>, xs: seq<nat>)
    requires |s| == |xs|
    ensures Overwritten(s, 0, xs) == xs
  {
  }

  lemma OverwrittenEnd(s: seq<nat>, xs: seq<nat>)
    ensures Overwritten(Resized(s, |s| + |xs|), |s|, xs) == s + xs
  {
  }

  /** Queue by queue. */
  ghost predicate AllDealt(src_list: seq<nat>, dst_list: seq<nat>, owner: seq<nat>, srcs: seq<seq<nat>>,
                           dsts: seq<seq<nat>>, m: nat) {
    m <= |srcs| == |dsts| && forall q :: 0 <= q < m ==> DealtTo(src_list, dst_list, owner, q, srcs[q], dsts[q])
  }

  lemma AllDealtNext(src_list: seq<nat>, dst_list: seq<nat>, owner: seq<nat>, srcs: seq<seq<nat>>, dsts: seq<seq<nat>>,
                     x: nat, k: nat)
    requires AllDealt(src_list, dst_list, owner, srcs, dsts, |srcs|) && x < |srcs|
    requires |owner| + k <= |src_list| == |dst_list|
    ensures var b, e := |owner|, |owner| + k;
            AllDealt(src_list, dst_list, owner + Repeat(x, k), srcs[x := srcs[x] + src_list[b..e]],
                     dsts[x := dsts[x] + dst_list[b..e]], |srcs|)
  {
    hide Picked, Repeat, DealtTo;
    var b, e := |owner|, |owner| + k;
    var srcs', dsts' := srcs[x := srcs[x] + src_list[b..e]], dsts[x := dsts[x] + dst_list[b..e]];
    forall q | 0 <= q < |srcs| ensures DealtTo(src_list, dst_list, owner + Repeat(x, k), q, srcs'[q], dsts'[q]) {
      DealtChunk(src_list, dst_list, owner, x, k, q, srcs[q], dsts[q]);
    }
  }

  /** The first chunk of queue x. */
  lemma AllDealtFirst(src_list: seq<nat>, dst_list: seq<nat>, owner: seq<nat>, srcs: seq<seq<nat>>, dsts: seq<seq<nat>>,
                      x: nat, k: nat)
    requires AllDealt(src_list, dst_list, owner, srcs, dsts, x) && x < |srcs| && x !in owner
    requires |owner| + k <= |src_list| == |dst_list|
    ensures var b, e := |owner|, |owner| + k;
            AllDealt(src_list, dst_list, owner + Repeat(x, k), srcs[x := src_list[b..e]], dsts[x := dst_list[b..e]],
                     x + 1)
  {
    hide Picked, Repeat, DealtTo;
    DealtNothing(src_list, dst_list, owner, x);
    var b, e := |owner|, |owner| + k;
    var srcs', dsts' := srcs[x := src_list[b..e]], dsts[x := dst_list[b..e]];
    forall q | 0 <= q < x + 1 ensures DealtTo(src_list, dst_list, owner + Repeat(x, k), q, srcs'[q], dsts'[q]) {
      assert [] + src_list[b..e] == src_list[b..e] && [] + dst_list[b..e] == dst_list[b..e];
      if q == x {
        DealtChunk(src_list, dst_list, owner, x, k, q, [], []);
      } else {
        DealtChunk(src_list, dst_list, owner, x, k, q, srcs[q], dsts[q]);
      }
    }
  }

  lemma AllDealtNone(src_list: seq<nat>, dst_list: seq<nat>, srcs: seq<seq<nat>>, dsts: seq<seq<nat>>)
    requires |srcs| == |dsts|
    ensures AllDealt(src_list, dst_list, [], srcs, dsts, 0)
  {
  }

  lemma AllDealtIsDealt(src_list: seq<nat>, dst_list: seq<nat>, owner: seq<nat>, n: nat,
                        srcs: seq<seq<nat>>, dsts: seq<seq<nat>>, lens: seq<nat>)
    requires AllDealt(src_list, dst_list, owner, srcs, dsts, n) && |srcs| == |lens| == n
             && |src_list| == |dst_list| >= |owner|
    requires forall q :: 0 <= q < n ==> lens[q] == |srcs[q]|
    requires forall q :: q in owner ==> q < n
    ensures Dealt(src_list, dst_list, owner, n, srcs, dsts, lens)
  {
    forall e | 0 <= e < |owner| ensures owner[e] < n {
      assert owner[e] in owner;
    }
  }

  /** The state between two chunks. */
  ghost predicate Running(work: seq<nat>, src_list: seq<nat>, dst_list: seq<nat>, stride: nat, n: nat,
                          chunkOwner: seq<nat>, srcs: seq<seq<nat>>, dsts: seq<seq<nat>>, lens: seq<nat>,
                          scores: seq<nat>)
  {
    && stride > 0 && |work| == |src_list| == |dst_list| && |scores| == |lens| == |srcs| == |dsts| == n
    && (forall q :: 0 <= q < n ==> lens[q] == |srcs[q]|)
    && n <= |chunkOwner| <= Chunks(|work|, stride)
    && Greedy(ChunkWorks(work, stride), chunkOwner, n)
    && Scored(ChunkWorks(work, stride), chunkOwner, scores)
    && AllDealt(src_list, dst_list, TaskOwners(chunkOwner, stride, |work|), srcs, dsts, n)
  }

  lemma FirstSmallestInRange(scores: seq<nat>, id: nat)
    requires IsFirstSmallest(scores, id)
    ensures id < |scores|
  {
  }

  /** Giving the next chunk to the queue of smallest score. */
  lemma RunningNext(work: seq<nat>, src_list: seq<nat>, dst_list: seq<nat>, stride: nat, n: nat, chunkOwner: seq<nat>,
                    srcs: seq<seq<nat>>, dsts: seq<seq<nat>>, lens: seq<nat>, scores: seq<nat>, id: nat)
    requires Running(work, src_list, dst_list, stride, n, chunkOwner, srcs, dsts, lens, scores)
    requires IsFirstSmallest(scores, id) && |chunkOwner| < Chunks(|work|, stride)
    ensures |ChunkWorks(work, stride)| == Chunks(|work|, stride) && id < n == |srcs| == |dsts| == |lens| == |scores|
    ensures BlockStart(|work|, stride, |chunkOwner|) <= BlockStart(|work|, stride, |chunkOwner| + 1) <= |src_list|
            == |dst_list|
    ensures var b, e := BlockStart(|work|, stride, |chunkOwner|), BlockStart(|work|, stride, |chunkOwner| + 1);
            Running(work, src_list, dst_list, stride, n, chunkOwner + [id],
                    srcs[id := srcs[id] + src_list[b..e]], dsts[id := dsts[id] + dst_list[b..e]],
                    lens[id := lens[id] + (e - b)], scores[id := scores[id] + ChunkWorks(work, stride)[|chunkOwner|]])
  {
    hide Chunks, ChunkWorks, BlockStart, Greedy, Scored, AllDealt, TaskOwners, Repeat, IsNext;
    FirstSmallestInRange(scores, id);
    ChunkWorksLength(work, stride);
    ScoredSmallestIsNext(ChunkWorks(work, stride), chunkOwner, scores, id);
    GreedyNext(ChunkWorks(work, stride), chunkOwner, n, id);
    ScoredNext(ChunkWorks(work, stride), chunkOwner, scores, id);
    NextChunk(chunkOwner, stride, |work|, id);
    var b, e := BlockStart(|work|, stride, |chunkOwner|), BlockStart(|work|, stride, |chunkOwner| + 1);
    AllDealtNext(src_list, dst_list, TaskOwners(chunkOwner, stride, |work|), srcs, dsts, id, e - b);
  }

  lemma OwnersInRange(work: seq<nat>, chunkOwner: seq<nat>, stride: nat, total: nat, n: nat)
    requires stride > 0 && Greedy(work, chunkOwner, n) && |chunkOwner| <= Chunks(total, stride)
    ensures forall q :: q in TaskOwners(chunkOwner, stride, total) ==> q < n
  {
    hide *;
    GreedyInRange(work, chunkOwner, n);
    TaskOwnersFrom(chunkOwner, stride, total);
  }

  /** With all chunks given out, every task has been. */
  lemma RunningDone(work: seq<nat>, src_list: seq<nat>, dst_list: seq<nat>, stride: nat, n: nat, chunkOwner: seq<nat>,
                    srcs: seq<seq<nat>>, dsts: seq<seq<nat>>, lens: seq<nat>, scores: seq<nat>)
    requires Running(work, src_list, dst_list, stride, n, chunkOwner, srcs, dsts, lens, scores)
    requires |chunkOwner| == Chunks(|work|, stride)
    ensures Greedy(ChunkWorks(work, stride), chunkOwner, n)
    ensures |TaskOwners(chunkOwner, stride, |src_list|)| == |src_list|
    ensures Dealt(src_list, dst_list, TaskOwners(chunkOwner, stride, |src_list|), n, srcs, dsts, lens)
  {
    hide Chunks, ChunkWorks, Greedy, Scored, AllDealt, TaskOwners, Dealt;
    ChunksCover(|work|, stride, 0);
    OwnersInRange(ChunkWorks(work, stride), chunkOwner, stride, |work|, n);
    AllDealtIsDealt(src_list, dst_list, TaskOwners(chunkOwner, stride, |work|), n, srcs, dsts, lens);
  }

  lemma WorkloadsLength(g: Csr, src_list: seq<nat>, dst_list: seq<nat>)
    requires ValidTasks(g, src_list, dst_list)
    ensures |Workloads(g, src_list, dst_list)| == |src_list| == |dst_list|
  {
  }

  lemma RunningStarts(work: seq<nat>, src_list: seq<nat>, dst_list: seq<nat>, stride: nat, n: nat,
                      srcs: seq<seq<nat>>, dsts: seq<seq<nat>>, lens: seq<nat>, scores: seq<nat>)
    requires stride > 0 && |work| == |src_list| == |dst_list| && |scores| == |lens| == |srcs| == |dsts| == n
    requires forall q :: 0 <= q < n ==> lens[q] == |srcs[q]|
    requires |Ascending(n)| == n <= Chunks(|work|, stride)
    requires Greedy(ChunkWorks(work, stride), Ascending(n), n) && Scored(ChunkWorks(work, stride), Ascending(n), scores)
    requires AllDealt(src_list, dst_list, TaskOwners(Ascending(n), stride, |work|), srcs, dsts, n)
    ensures Running(work, src_list, dst_list, stride, n, Ascending(n), srcs, dsts, lens, scores)
  {
    hide Chunks, ChunkWorks, Greedy, Scored, AllDealt, TaskOwners, Ascending;
  }

  class Scheduler {
    var srcs: seq<seq<nat>>
    var dsts: seq<seq<nat>>

    constructor ()
      ensures srcs == [] && dsts == []
    {
      srcs, dsts := [], [];
    }

    method ResizeQueues(n: nat, stride: nat)
      modifies this
      ensures |srcs| == |dsts| == n && forall q :: 0 <= q < n ==> |srcs[q]| == |dsts[q]| == stride
    {
      srcs, dsts := ResizedQueues(srcs, n), ResizedQueues(dsts, n);
      for i := 0 to n
        invariant |srcs| == |dsts| == n && forall q :: 0 <= q < i ==> |srcs[q]| == |dsts[q]| == stride
      {
        srcs := srcs[i := Resized(srcs[i], stride)];
        dsts := dsts[i := Resized(dsts[i], stride)];
      }
    }

    /** Scores the first chunk of each queue. */
    method ScoreFirst(n: nat, g: Csr, src_list: seq<nat>, dst_list: seq<nat>, stride: nat)
      returns (scores: array<nat>, lens: seq<nat>)
      requires stride > 0 && ValidTasks(g, src_list, dst_list) && n * stride < |src_list|
      ensures fresh(scores) && scores.Length == |lens| == n && forall q :: 0 <= q < n ==> lens[q] == stride
      ensures var cw := ChunkWorks(Workloads(g, src_list, dst_list), stride);
              Greedy(cw, Ascending(n), n) && Scored(cw, Ascending(n), scores[..])
    {
      hide *;
      ghost var work := Workloads(g, src_list, dst_list);
      ghost var cw := ChunkWorks(work, stride);
      WorkloadsLength(g, src_list, dst_list);
      scores := new nat[n](i => 0);
      lens := seq(n, i => 0);
      AscendingStarts(cw, n);
      ScoredNothing(cw, scores[..]);
      for i := 0 to n
        invariant |lens| == n && fresh(scores) && scores.Length == n
        invariant forall q :: 0 <= q < n ==> lens[q] == if q < i then stride else 0
        invariant Greedy(cw, Ascending(i), n) && Scored(cw, Ascending(i), scores[..])
      {
        FirstChunkAt(|src_list|, stride, n, i);
        ChunkWorkIs(work, stride, i);
        AscendingStep(i);
        ScoredNext(cw, Ascending(i), scores[..], i);
        AscendingNext(cw, i, n);
        AddWorkloads(g, src_list, dst_list, i * stride, (i + 1) * stride, scores, i);
        lens := lens[i := lens[i] + stride];
      }
    }

    /** Copies the first chunk of each queue. */
    method CopyFirst(n: nat, src_list: seq<nat>, dst_list: seq<nat>, stride: nat) returns (pos: nat)
      requires stride > 0 && |src_list| == |dst_list| && n * stride < |src_list| && |srcs| == |dsts| == n
      requires forall q :: 0 <= q < n ==> |srcs[q]| == |dsts[q]| == stride
      modifies this
      ensures |srcs| == |dsts| == n && pos == n * stride
      ensures forall q :: 0 <= q < n ==> |srcs[q]| == |dsts[q]| == stride
      ensures AllDealt(src_list, dst_list, TaskOwners(Ascending(n), stride, |src_list|), srcs, dsts, n)
    {
      hide *;
      pos := 0;
      NoChunks(src_list, stride, 0);
      AscendingStarts([], n);
      AllDealtNone(src_list, dst_list, srcs, dsts);
      for i := 0 to n
        invariant |srcs| == |dsts| == n && pos == i * stride
        invariant forall q :: 0 <= q < n ==> |srcs[q]| == |dsts[q]| == stride
        invariant AllDealt(src_list, dst_list, TaskOwners(Ascending(i), stride, |src_list|), srcs, dsts, i)
      {
        FirstChunkAt(|src_list|, stride, n, i);
        AscendingOwners(stride, |src_list|, i);
        AscendingStep(i);
        NextChunk(Ascending(i), stride, |src_list|, i);
        OverwrittenWhole(srcs[i], src_list[pos..pos + stride]);
        OverwrittenWhole(dsts[i], dst_list[pos..pos + stride]);
        AllDealtFirst(src_list, dst_list, TaskOwners(Ascending(i), stride, |src_list|), srcs, dsts, i, stride);
        srcs := srcs[i := Overwritten(srcs[i], 0, src_list[pos..pos + stride])];
        dsts := dsts[i := Overwritten(dsts[i], 0, dst_list[pos..pos + stride])];
        pos := pos + stride;
      }
    }

    /** Greedy assignment: every chunk after the first round to the queue with the smallest score. The work of a task is
        the smaller degree of its ends. */
    method LeastFirst(n: nat, g: Csr, src_list: seq<nat>, dst_list: seq<nat>, stride: nat)
      returns (lens: seq<nat>, src_ptrs: seq<seq<nat>>, dst_ptrs: seq<seq<nat>>, ghost work: seq<nat>,
               ghost chunkOwner: seq<nat>, ghost largest: nat)
      requires n > 0 && stride > 0 && ValidTasks(g, src_list, dst_list) && n * stride < |src_list|
      modifies this
      ensures SmallerDegrees(g, src_list, dst_list, work)
      ensures g.Simple() ==> CoversCommon(g, src_list, dst_list, work)
      ensures |chunkOwner| == Chunks(|src_list|, stride) && Greedy(ChunkWorks(work, stride), chunkOwner, n)
      ensures |TaskOwners(chunkOwner, stride, |src_list|)| == |src_list| == |work|
      ensures forall e :: 0 <= e < |src_list| ==>
                e / stride < |chunkOwner| && TaskOwners(chunkOwner, stride, |src_list|)[e] == chunkOwner[e / stride]
      ensures Dealt(src_list, dst_list, TaskOwners(chunkOwner, stride, |src_list|), n, src_ptrs, dst_ptrs, lens)
      ensures IsLargestChunk(work, stride, largest)
      ensures QueuesEven(work, TaskOwners(chunkOwner, stride, |src_list|), n, largest)
    {
      hide *;
      work := Workloads(g, src_list, dst_list);
      WorkloadsLength(g, src_list, dst_list);
      WorkloadsAre(g, src_list, dst_list);
      SmallerDegreesCover(g, src_list, dst_list, work);
      var nnz := |src_list|;
      ResizeQueues(n, stride);
      var scores: array<nat>;
      scores, lens := ScoreFirst(n, g, src_list, dst_list, stride);
      var pos := CopyFirst(n, src_list, dst_list, stride);
      chunkOwner := Ascending(n);
      FirstChunkAt(nnz, stride, n, n - 1);
      AscendingOwners(stride, nnz, n);
      RunningStarts(work, src_list, dst_list, stride, n, srcs, dsts, lens, scores[..]);
      var id := SmallestScoreId(n, scores);
      while pos + stride < nnz
        invariant fresh(scores) && scores.Length == n && pos == BlockStart(nnz, stride, |chunkOwner|) < nnz
        invariant Running(work, src_list, dst_list, stride, n, chunkOwner, srcs, dsts, lens, scores[..])
        invariant IsFirstSmallest(scores[..], id)
      {
        ChunkAt(nnz, stride, |chunkOwner|);
        RunningNext(work, src_list, dst_list, stride, n, chunkOwner, srcs, dsts, lens, scores[..], id);
        lens := GiveChunk(work, g, src_list, dst_list, pos, stride, id, scores, lens, |chunkOwner|);
        pos := pos + stride;
        chunkOwner := chunkOwner + [id];
        id := SmallestScoreId(n, scores);
      }
      ChunkAt(nnz, stride, |chunkOwner|);
      RunningNext(work, src_list, dst_list, stride, n, chunkOwner, srcs, dsts, lens, scores[..], id);
      ghost var finalScores := scores[..][id := scores[id] + ChunkWorks(work, stride)[|chunkOwner|]];
      chunkOwner := chunkOwner + [id];
      if pos < nnz {
        lens := lens[id := lens[id] + (nnz - pos)];
      }
      assert src_list[pos..] == src_list[pos..nnz] && dst_list[pos..] == dst_list[pos..nnz];
      PushRest(id, src_list, dst_list, pos);
      RunningDone(work, src_list, dst_list, stride, n, chunkOwner, srcs, dsts, lens, finalScores);
      src_ptrs, dst_ptrs := srcs, dsts;
      TaskOwnersAre(chunkOwner, stride, nnz);
      largest := LargestChunk(work, stride);
      GreedyIsEven(work, chunkOwner, stride, n, largest);
    }

    /** One chunk for queue id: scores, length, and the tasks. */
    method GiveChunk(ghost work: seq<nat>, g: Csr, src_list: seq<nat>, dst_list: seq<nat>, pos: nat, stride: nat,
                     id: nat, scores: array<nat>, lens: seq<nat>, ghost c: nat)
      returns (lens': seq<nat>)
      requires stride > 0 && ValidTasks(g, src_list, dst_list) && work == Workloads(g, src_list, dst_list)
      requires pos == BlockStart(|src_list|, stride, c) && pos + stride < |src_list| == |dst_list| == |work|
      requires id < |srcs| == |dsts| == |lens| == scores.Length && c < |ChunkWorks(work, stride)|
      modifies this, scores
      ensures srcs == old(srcs)[id := old(srcs)[id] + src_list[pos..pos + stride]]
      ensures dsts == old(dsts)[id := old(dsts)[id] + dst_list[pos..pos + stride]]
      ensures scores[..] == old(scores[..])[id := old(scores[id]) + ChunkWorks(work, stride)[c]]
      ensures lens' == lens[id := lens[id] + stride]
    {
      hide *;
      ChunkWorksLength(work, stride);
      ChunkWorkIs(work, stride, c);
      ChunkAt(|src_list|, stride, c);
      AddWorkloads(g, src_list, dst_list, pos, pos + stride, scores, id);
      lens' := lens[id := lens[id] + stride];
      OverwrittenEnd(srcs[id], src_list[pos..pos + stride]);
      OverwrittenEnd(dsts[id], dst_list[pos..pos + stride]);
      var curr_size := |srcs[id]|;
      srcs := srcs[id := Overwritten(Resized(srcs[id], curr_size + stride), curr_size, src_list[pos..pos + stride])];
      curr_size := |dsts[id]|;
      dsts := dsts[id := Overwritten(Resized(dsts[id], curr_size + stride), curr_size, dst_list[pos..pos + stride])];
    }

    /** The last chunk, task by task. */
    method PushRest(id: nat, src_list: seq<nat>, dst_list: seq<nat>, start: nat)
      requires id < |srcs| && id < |dsts| && start <= |src_list| == |dst_list|
      modifies this
      ensures srcs == old(srcs)[id := old(srcs)[id] + src_list[start..]]
      ensures dsts == old(dsts)[id := old(dsts)[id] + dst_list[start..]]
    {
      var pos := start;
      ghost var src, dst := srcs[id], dsts[id];
      assert src + src_list[start..start] == src && dst + dst_list[start..start] == dst;
      while pos < |src_list|
        invariant start <= pos <= |src_list|
        invariant srcs == old(srcs)[id := src + src_list[start..pos]]
        invariant dsts == old(dsts)[id := dst + dst_list[start..pos]]
      {
        srcs := srcs[id := srcs[id] + [src_list[pos]]];
        dsts := dsts[id := dsts[id] + [dst_list[pos]]];
        pos := pos + 1;
        assert srcs[id] == src + src_list[start..pos] && dsts[id] == dst + dst_list[start..pos];
      }
      assert src_list[start..] == src_list[start..pos] && dst_list[start..] == dst_list[start..pos];
    }
  }
}
