/** Splitting the edge list by chunks of source vertices (sansa/src/common/scheduler.cc:100-130). */
module VertexChunking {
  import opened CsrGraph
  import opened Queues
  import opened EdgeList
  import opened Scheduling
  import opened RoundRobin
  import opened TaskGraph

  function QueueOf(v: nat, stride: nat, n: nat): (q: nat)
    requires stride > 0 && n > 0
    ensures q < n
  {
    (v / stride) % n
  }

  /** The queue of each task: that of its source. */
  ghost function TaskQueues(src_list: seq<nat>, stride: nat, n: nat): (owner: seq<nat>)
    requires stride > 0 && n > 0
    ensures |owner| == |src_list|
  {
    seq(|src_list|, e requires 0 <= e < |src_list| => QueueOf(src_list[e], stride, n))
  }

  /** Chunks of `stride` vertices go to the queues in turn, and every task with its source. */
  lemma QueueOfTask(src_list: seq<nat>, stride: nat, n: nat, e: nat)
    requires stride > 0 && n > 0 && e < |src_list|
    ensures TaskQueues(src_list, stride, n)[e] == (src_list[e] / stride) % n
  {
  }

  lemma QueuesOfTasks(src_list: seq<nat>, stride: nat, n: nat)
    requires stride > 0 && n > 0
    ensures forall e :: 0 <= e < |src_list| ==> TaskQueues(src_list, stride, n)[e] == (src_list[e] / stride) % n
  {
    hide TaskQueues;
    forall e | 0 <= e < |src_list| ensures TaskQueues(src_list, stride, n)[e] == (src_list[e] / stride) % n {
      QueueOfTask(src_list, stride, n, e);
    }
  }

  ghost function VertexQueues(nv: nat, stride: nat, n: nat): (owner: seq<nat>)
    requires stride > 0 && n > 0
    ensures |owner| == nv
  {
    seq(nv, v requires 0 <= v => QueueOf(v, stride, n))
  }

  ghost function TaskCounts(src_list: seq<nat>, nv: nat): (counts: seq<nat>)
    ensures |counts| == nv
  {
    seq(nv, v requires 0 <= v => Held(src_list, v))
  }

  // ---------- The queue lengths ----------

  lemma {:induction false} LoadIncrement(work: seq<nat>, owner: seq<nat>, x: nat, q: nat)
    requires |owner| <= |work| && x < |work|
    ensures Load(work[x := work[x] + 1], owner, q) == Load(work, owner, q)
            + if x < |owner| && owner[x] == q then 1 else 0
    decreases |owner|
  {
    if owner != [] {
      LoadIncrement(work, owner[..|owner| - 1], x, q);
    }
  }

  lemma HeldSnoc(owner: seq<nat>, x: nat, q: nat)
    ensures Held(owner + [x], q) == Held(owner, q) + if x == q then 1 else 0
  {
    assert [x] == Repeat(x, 1);
    HeldChunk(owner, x, 1, q);
  }

  lemma {:induction false} NoWork(m: nat, owner: seq<nat>, q: nat)
    requires |owner| <= m
    ensures Load(Repeat(0, m), owner, q) == 0
    decreases |owner|
  {
    if owner != [] {
      NoWork(m, owner[..|owner| - 1], q);
    }
  }

  /** Counting a queue's tasks by vertex, or one by one. */
  lemma {:induction false} CountsByVertex(src_list: seq<nat>, nv: nat, stride: nat, n: nat, q: nat)
    requires stride > 0 && n > 0 && forall e :: 0 <= e < |src_list| ==> src_list[e] < nv
    ensures Load(TaskCounts(src_list, nv), VertexQueues(nv, stride, n), q) == Held(TaskQueues(src_list, stride, n), q)
    decreases |src_list|
  {
    hide Load, Held, QueueOf;
    if src_list == [] {
      NoWork(nv, VertexQueues(nv, stride, n), q);
      HeldNothing(q);
      forall v: nat ensures Held([], v) == 0 {
        HeldNothing(v);
      }
      assert TaskCounts([], nv) == Repeat(0, nv);
    } else {
      var front, x := src_list[..|src_list| - 1], src_list[|src_list| - 1];
      assert src_list == front + [x];
      CountsByVertex(front, nv, stride, n, q);
      assert TaskQueues(src_list, stride, n) == TaskQueues(front, stride, n) + [QueueOf(x, stride, n)];
      HeldSnoc(TaskQueues(front, stride, n), QueueOf(x, stride, n), q);
      var counts := TaskCounts(front, nv);
      forall v | 0 <= v < nv ensures TaskCounts(src_list, nv)[v] == counts[x := counts[x] + 1][v] {
        HeldSnoc(front, x, v);
      }
      assert TaskCounts(src_list, nv) == counts[x := counts[x] + 1];
      LoadIncrement(counts, VertexQueues(nv, stride, n), x, q);
    }
  }

  lemma {:induction false} LoadMonotone(a: seq<nat>, b: seq<nat>, owner: seq<nat>, q: nat)
    requires |owner| <= |a| == |b| && forall v :: 0 <= v < |a| ==> a[v] <= b[v]
    ensures Load(a, owner, q) <= Load(b, owner, q)
    ensures forall v :: 0 <= v < |owner| && owner[v] == q && a[v] < b[v] ==> Load(a, owner, q) < Load(b, owner, q)
    decreases |owner|
  {
    if owner != [] {
      LoadMonotone(a, b, owner[..|owner| - 1], q);
    }
  }

  /** The computed lengths are the queues' if and only if the sizes are the vertices' task counts. */
  lemma LengthsExactWhenSizesMatch(sizes: seq<nat>, src_list: seq<nat>, nv: nat, stride: nat, n: nat)
    requires stride > 0 && n > 0 && |sizes| == nv
    requires forall e :: 0 <= e < |src_list| ==> src_list[e] < nv
    requires forall v :: 0 <= v < nv ==> sizes[v] >= Held(src_list, v)
    ensures SizesMatch(sizes, src_list, nv) <==>
            forall q :: 0 <= q < n ==>
                  Load(sizes, VertexQueues(nv, stride, n), q) == Held(TaskQueues(src_list, stride, n), q)
  {
    hide Load, Held, QueueOf;
    var counts, owner := TaskCounts(src_list, nv), VertexQueues(nv, stride, n);
    forall q | 0 <= q < n
      ensures Load(counts, owner, q) == Held(TaskQueues(src_list, stride, n), q)
      ensures forall v :: 0 <= v < nv && owner[v] == q && counts[v] < sizes[v] ==>
                Load(counts, owner, q) < Load(sizes, owner, q)
    {
      CountsByVertex(src_list, nv, stride, n, q);
      LoadMonotone(counts, sizes, owner, q);
    }
    if SizesMatch(sizes, src_list, nv) {
      assert sizes == counts;
    } else {
      var v :| 0 <= v < nv && sizes[v] != Held(src_list, v);
      var q := owner[v];
      assert counts[v] < sizes[v];
      assert Load(counts, owner, q) < Load(sizes, owner, q);
    }
  }

  // ---------- Counts left over from an earlier list ----------

  /** Work of two kinds is added up. */
  lemma {:induction false} LoadAdds(a: seq<nat>, b: seq<nat>, both: seq<nat>, owner: seq<nat>, q: nat)
    requires |owner| <= |a| == |b| == |both| && forall v :: 0 <= v < |a| ==> both[v] == a[v] + b[v]
    ensures Load(both, owner, q) == Load(a, owner, q) + Load(b, owner, q)
    decreases |owner|
  {
    if owner != [] {
      LoadAdds(a, b, both, owner[..|owner| - 1], q);
    }
  }

  /** sizes counts the tasks of an earlier list `first` besides those of the list there is now. */
  ghost predicate CountsBoth(sizes: seq<nat>, first: seq<nat>, src_list: seq<nat>, nv: nat) {
    && |sizes| == nv
    && (forall e :: 0 <= e < |first| ==> first[e] < nv)
    && (forall e :: 0 <= e < |src_list| ==> src_list[e] < nv)
    && (forall v :: 0 <= v < nv ==> sizes[v] == Held(first, v) + Held(src_list, v))
  }

  /** The lengths then computed are the lengths for the two lists, one after the other. */
  lemma LengthsOfBoth(sizes: seq<nat>, first: seq<nat>, src_list: seq<nat>, nv: nat, stride: nat, n: nat, q: nat)
    requires stride > 0 && n > 0 && CountsBoth(sizes, first, src_list, nv)
    ensures Load(sizes, VertexQueues(nv, stride, n), q)
            == Held(TaskQueues(first, stride, n), q) + Held(TaskQueues(src_list, stride, n), q)
  {
    hide Load, Held, QueueOf;
    CountsByVertex(first, nv, stride, n, q);
    CountsByVertex(src_list, nv, stride, n, q);
    LoadAdds(TaskCounts(first, nv), TaskCounts(src_list, nv), sizes, VertexQueues(nv, stride, n), q);
  }

  lemma HeldByOwner(owner: seq<nat>)
    requires owner != []
    ensures Held(owner, owner[|owner| - 1]) > 0
  {
    var front, x := owner[..|owner| - 1], owner[|owner| - 1];
    assert owner == front + [x];
    HeldSnoc(front, x, x);
  }

  /** Left-over counts are harmless only if there was nothing to count. */
  lemma LeftoverMismatch(sizes: seq<nat>, first: seq<nat>, src_list: seq<nat>, nv: nat)
    requires CountsBoth(sizes, first, src_list, nv)
    ensures SizesMatch(sizes, src_list, nv) <==> first == []
  {
    hide Held;
    if first == [] {
      forall v: nat ensures Held(first, v) == 0 {
        HeldNothing(v);
      }
    } else {
      HeldByOwner(first);
      assert first[|first| - 1] < nv;
    }
  }

  // ---------- The program ----------

  method QueueSizes(n: nat, nv: nat, sizes: seq<nat>, stride: nat) returns (lens: seq<nat>)
    requires n > 0 && stride > 0 && |sizes| == nv
    ensures |lens| == n && forall q :: 0 <= q < n ==> lens[q] == Load(sizes, VertexQueues(nv, stride, n), q)
  {
    hide QueueOf;
    lens := seq(n, i => 0);
    for v := 0 to nv
      invariant |lens| == n && forall q :: 0 <= q < n ==> lens[q] == Load(sizes, VertexQueues(v, stride, n), q)
    {
      var i := QueueOf(v, stride, n);
      forall q | 0 <= q < n
        ensures Load(sizes, VertexQueues(v + 1, stride, n), q) == Load(sizes, VertexQueues(v, stride, n), q)
                + if i == q then sizes[v] else 0
      {
        assert VertexQueues(v + 1, stride, n) == VertexQueues(v, stride, n) + [i];
        LoadNext(sizes, VertexQueues(v, stride, n), i, q);
      }
      lens := lens[i := lens[i] + sizes[v]];
    }
  }

  /** How much of each buffer is filled. */
  ghost predicate Cursors(idx: seq<nat>, owner: seq<nat>) {
    forall q :: 0 <= q < |idx| ==> idx[q] == Held(owner, q)
  }

  lemma CursorsNext(idx: seq<nat>, owner: seq<nat>, x: nat)
    requires Cursors(idx, owner) && x < |idx|
    ensures Cursors(idx[x := idx[x] + 1], owner + Repeat(x, 1)) && idx[x] == Held(owner, x)
  {
    hide Held;
    forall q | 0 <= q < |idx| ensures idx[x := idx[x] + 1][q] == Held(owner + Repeat(x, 1), q) {
      HeldChunk(owner, x, 1, q);
    }
  }

  lemma CursorsStart(n: nat)
    ensures Cursors(seq(n, i => 0), [])
  {
  }

  lemma OneTask(src_list: seq<nat>, dst_list: seq<nat>, stride: nat, n: nat, eid: nat, sizes: seq<nat>, nv: nat)
    requires stride > 0 && n > 0 && eid < |src_list| == |dst_list| && |sizes| == nv
    requires forall e :: 0 <= e < |src_list| ==> src_list[e] < nv
    requires forall v :: 0 <= v < nv ==> sizes[v] >= Held(src_list, v)
    ensures var q, owner := QueueOf(src_list[eid], stride, n), TaskQueues(src_list, stride, n);
            && |owner| == |src_list| && owner[..eid + 1] == owner[..eid] + Repeat(q, 1)
            && Held(owner[..eid], q) + 1 <= Load(sizes, VertexQueues(nv, stride, n), q)
            && src_list[eid..eid + 1] == [src_list[eid]] && dst_list[eid..eid + 1] == [dst_list[eid]]
  {
    hide Load, Held, QueueOf;
    var q, owner := QueueOf(src_list[eid], stride, n), TaskQueues(src_list, stride, n);
    assert owner[..eid + 1] == owner[..eid] + Repeat(q, 1);
    HeldChunk(owner[..eid], q, 1, q);
    HeldPrefix(owner, eid + 1, q);
    CountsByVertex(src_list, nv, stride, n, q);
    LoadMonotone(TaskCounts(src_list, nv), sizes, VertexQueues(nv, stride, n), q);
  }

  lemma QueuesInRange(src_list: seq<nat>, stride: nat, n: nat)
    requires stride > 0 && n > 0
    ensures forall e :: 0 <= e < |src_list| ==> TaskQueues(src_list, stride, n)[e] < n
  {
  }

  lemma DealtWhenLengthsExact(src_list: seq<nat>, dst_list: seq<nat>, owner: seq<nat>, n: nat,
                              srcs: seq<seq<nat>>, dsts: seq<seq<nat>>, lens: seq<nat>)
    requires Filled(src_list, dst_list, owner, srcs, dsts, lens) && |owner| <= |src_list| && |lens| == n
    requires forall e :: 0 <= e < |owner| ==> owner[e] < n
    ensures Dealt(src_list, dst_list, owner, n, srcs, dsts, lens) <==>
              forall q :: 0 <= q < n ==> lens[q] == Held(owner, q)
  {
    hide Held, Picked, FilledTo;
    if Dealt(src_list, dst_list, owner, n, srcs, dsts, lens) {
      forall q | 0 <= q < n ensures lens[q] == Held(owner, q) {
        PickedLength(src_list, owner, q);
      }
    }
    if forall q :: 0 <= q < n ==> lens[q] == Held(owner, q) {
      FilledIsDealt(src_list, dst_list, owner, srcs, dsts, lens);
    }
  }

  /** Each edge to the queue of its source's chunk, order kept. */
  method VertexChunking(n: nat, nv: nat, src_list: seq<nat>, dst_list: seq<nat>, sizes: seq<nat>, stride: nat)
    returns (lens: seq<nat>, srcs: seq<seq<nat>>, dsts: seq<seq<nat>>)
    requires n > 0 && stride > 0 && |src_list| == |dst_list| && |sizes| == nv
    requires forall e :: 0 <= e < |src_list| ==> src_list[e] < nv
    requires forall v :: 0 <= v < nv ==> sizes[v] >= Held(src_list, v)
    ensures |lens| == n && forall q :: 0 <= q < n ==> lens[q] == Load(sizes, VertexQueues(nv, stride, n), q)
    ensures Filled(src_list, dst_list, TaskQueues(src_list, stride, n), srcs, dsts, lens)
    ensures Dealt(src_list, dst_list, TaskQueues(src_list, stride, n), n, srcs, dsts, lens) <==>
              SizesMatch(sizes, src_list, nv)
    ensures forall e :: 0 <= e < |src_list| ==> TaskQueues(src_list, stride, n)[e] == (src_list[e] / stride) % n
  {
    hide *;
    QueuesOfTasks(src_list, stride, n);
    lens := QueueSizes(n, nv, sizes, stride);
    srcs, dsts := NewBuffers(lens);
    var idx := seq(n, i => 0);
    ghost var owner := TaskQueues(src_list, stride, n);
    FilledNothing(src_list, dst_list, srcs, dsts, lens);
    CursorsStart(n);
    assert owner[..0] == [];
    for eid := 0 to |src_list|
      invariant |idx| == n && Cursors(idx, owner[..eid])
      invariant Filled(src_list, dst_list, owner[..eid], srcs, dsts, lens)
    {
      OneTask(src_list, dst_list, stride, n, eid, sizes, nv);
      var qid := QueueOf(src_list[eid], stride, n);
      FilledNext(src_list, dst_list, owner[..eid], srcs, dsts, lens, qid, 1);
      CursorsNext(idx, owner[..eid], qid);
      srcs := srcs[qid := Overwritten(srcs[qid], idx[qid], [src_list[eid]])];
      dsts := dsts[qid := Overwritten(dsts[qid], idx[qid], [dst_list[eid]])];
      idx := idx[qid := idx[qid] + 1];
    }
    assert owner[..|src_list|] == owner;
    LengthsExactWhenSizesMatch(sizes, src_list, nv, stride, n);
    QueuesInRange(src_list, stride, n);
    DealtWhenLengthsExact(src_list, dst_list, owner, n, srcs, dsts, lens);
  }

  // ---------- From the graph to the queues ----------

  lemma SourcesInRange(g: Csr, keep: (nat, nat) -> bool, src: seq<nat>, dst: seq<nat>)
    requires g.Simple() && IsEdgeList(g, keep, src, dst)
    ensures |src| == |dst| && forall e :: 0 <= e < |src| ==> src[e] < g.V()
  {
    EdgeListIsExact(g, keep, src, dst);
  }

  lemma UndirectedIsSymmetric(adj: Adjacency)
    ensures Undirected(adj) ==> Symmetric(adj)
  {
  }

  lemma FreshSizesMatch(sizes: seq<nat>, src_list: seq<nat>, nv: nat)
    requires |sizes| == nv && forall v :: 0 <= v < nv ==> sizes[v] == SizeAt([], v) + Held(src_list, v)
    ensures SizesMatch(sizes, src_list, nv) && forall v :: 0 <= v < nv ==> sizes[v] >= Held(src_list, v)
  {
    hide Held;
  }

  /** Fill the edge list, then chunk it: every task is in one queue, and the lengths are right. */
  method ChunkTasks(g: Csr, sym_break: bool, ascend: bool, n: nat, stride: nat)
    returns (t: TaskGraph, lens: seq<nat>, srcs: seq<seq<nat>>, dsts: seq<seq<nat>>)
    requires g.Simple() && (sym_break ==> Undirected(g.Adjacency())) && n > 0 && stride > 0
    ensures fresh(t) && t.g == g && IsEdgeList(g, Keeps(sym_break, ascend), t.src_list[..], t.dst_list[..])
    ensures Dealt(t.src_list[..], t.dst_list[..], TaskQueues(t.src_list[..], stride, n), n, srcs, dsts, lens)
    ensures forall e :: 0 <= e < t.src_list.Length ==>
              TaskQueues(t.src_list[..], stride, n)[e] == (t.src_list[e] / stride) % n
  {
    hide *;
    t := new TaskGraph(g);
    UndirectedIsSymmetric(g.Adjacency());
    var nnz := t.InitEdgelist(sym_break, ascend);
    SimpleIsWellFormed(g);
    VertexCount(g);
    var nv := |g.vertices| - 1;
    SourcesInRange(g, Keeps(sym_break, ascend), t.src_list[..], t.dst_list[..]);
    FreshSizesMatch(t.sizes, t.src_list[..], nv);
    lens, srcs, dsts := VertexChunking(n, nv, t.src_list[..], t.dst_list[..], t.sizes, stride);
  }

  lemma RefilledCounts(before: seq<nat>, sizes: seq<nat>, first: seq<nat>, src_list: seq<nat>, nv: nat)
    requires |before| == |sizes| == nv
    requires forall v :: 0 <= v < nv ==> before[v] == SizeAt([], v) + Held(first, v)
    requires forall v :: 0 <= v < nv ==> sizes[v] == SizeAt(before, v) + Held(src_list, v)
    requires forall e :: 0 <= e < |first| ==> first[e] < nv
    requires forall e :: 0 <= e < |src_list| ==> src_list[e] < nv
    ensures CountsBoth(sizes, first, src_list, nv) && forall v :: 0 <= v < nv ==> sizes[v] >= Held(src_list, v)
  {
    hide Held;
  }

  /** Fill the edge list, fill it again, then chunk it. The first list is still counted: each length is that of the two
      lists together, so the lengths are right if and only if the graph has no edges. */
  method ChunkAfterRefill(g: Csr, sym_break: bool, ascend: bool, sym_break': bool, ascend': bool, n: nat, stride: nat)
    returns (t: TaskGraph, ghost first: seq<nat>, lens: seq<nat>, srcs: seq<seq<nat>>, dsts: seq<seq<nat>>)
    requires g.Simple() && (sym_break || sym_break' ==> Undirected(g.Adjacency())) && n > 0 && stride > 0
    ensures fresh(t) && t.g == g && IsEdgeList(g, Keeps(sym_break', ascend'), t.src_list[..], t.dst_list[..])
    ensures |first| == if sym_break then |g.edges| / 2 else |g.edges|
    ensures |t.src_list[..]| == if sym_break' then |g.edges| / 2 else |g.edges|
    ensures |lens| == n && forall q :: 0 <= q < n ==>
              lens[q] == Held(TaskQueues(first, stride, n), q) + Held(TaskQueues(t.src_list[..], stride, n), q)
    ensures Dealt(t.src_list[..], t.dst_list[..], TaskQueues(t.src_list[..], stride, n), n, srcs, dsts, lens) <==>
            g.edges == []
  {
    hide *;
    t := new TaskGraph(g);
    UndirectedIsSymmetric(g.Adjacency());
    var nnz := t.InitEdgelist(sym_break, ascend);
    SimpleIsWellFormed(g);
    VertexCount(g);
    var nv := |g.vertices| - 1;
    first := t.src_list[..];
    ghost var before := t.sizes;
    SourcesInRange(g, Keeps(sym_break, ascend), first, t.dst_list[..]);
    nnz := t.ReinitEdgelist(sym_break', ascend');
    SourcesInRange(g, Keeps(sym_break', ascend'), t.src_list[..], t.dst_list[..]);
    RefilledCounts(before, t.sizes, first, t.src_list[..], nv);
    LeftoverMismatch(t.sizes, first, t.src_list[..], nv);
    if sym_break {
      EvenEdges(g);
    }
    lens, srcs, dsts := VertexChunking(n, nv, t.src_list[..], t.dst_list[..], t.sizes, stride);
    forall q | 0 <= q < n
      ensures lens[q] == Held(TaskQueues(first, stride, n), q) + Held(TaskQueues(t.src_list[..], stride, n), q)
    {
      LengthsOfBoth(t.sizes, first, t.src_list[..], nv, stride, n, q);
    }
  }

  lemma {:induction false} AllInOneQueue(owner: seq<nat>)
    requires forall e :: 0 <= e < |owner| ==> owner[e] == 0
    ensures Held(owner, 0) == |owner|
  {
    hide Held;
    if owner == [] {
      HeldNothing(0);
    } else {
      var front := owner[..|owner| - 1];
      assert owner == front + [0];
      AllInOneQueue(front);
      HeldSnoc(front, 0, 0);
    }
  }

  lemma OneEdgeWellFormed(g: Csr)
    requires g == Csr([0, 1, 2], [1, 0])
    ensures g.WellFormed()
  {
  }

  lemma OneEdgeRows(g: Csr)
    requires g == Csr([0, 1, 2], [1, 0])
    ensures g.Simple() && g.Adjacency() == [{1}, {0}]
  {
    OneEdgeWellFormed(g);
    hide Csr.WellFormed;
    assert g.N(0) == [1] && g.N(1) == [0];
    assert g.Adjacency()[0] == {1} && g.Adjacency()[1] == {0};
  }

  lemma TwoVertices(adj: Adjacency)
    requires adj == [{1}, {0}]
    ensures Undirected(adj)
  {
  }

  lemma OneEdge(g: Csr)
    requires g == Csr([0, 1, 2], [1, 0])
    ensures g.Simple() && Undirected(g.Adjacency())
  {
    OneEdgeRows(g);
    hide *;
    TwoVertices(g.Adjacency());
  }

  /** Two vertices, one edge, symmetry broken: one task, and the length reported for the only queue is two. */
  method RefillExample() returns (tasks: nat, lens: seq<nat>)
    ensures tasks == 1 && lens == [2]
  {
    var g := Csr([0, 1, 2], [1, 0]);
    hide *;
    OneEdge(g);
    var t, srcs, dsts; ghost var first;
    t, first, lens, srcs, dsts := ChunkAfterRefill(g, true, true, true, true, 1, 1);
    tasks := t.src_list.Length;
    AllInOneQueue(TaskQueues(first, 1, 1));
    AllInOneQueue(TaskQueues(t.src_list[..], 1, 1));
  }
}
