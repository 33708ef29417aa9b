/** Whole runs over the embedding store: initialise, extend level by level, count
    (sansa/include/pangolin_cpu/vertex_miner.h, sansa/include/pangolin_cpu/embedding.h). */
module Runs {
  import opened CsrGraph
  import opened Embeddings
  import opened Exploration
  import opened Exactness
  import opened MotifCounts
  import opened Cliques
  import opened CliqueMining
  import opened VertexMining

  lemma CanonicalExtensible(miner: VertexMiner, es: seq<seq<nat>>, k: nat)
    requires Loopless(miner.graph.Adjacency()) && ListsCanonical(miner.graph.Adjacency(), es, k) && k > 0
    ensures forall e :: e in es ==> miner.Extensible(e)
  {
    forall e | e in es ensures miner.Extensible(e) {
      CanonicalInRange(miner.graph.Adjacency(), e);
    }
  }

  lemma ReadyRows(miner: VertexMiner)
    requires miner.Ready()
    ensures Loopless(miner.graph.Adjacency()) && Undirected(miner.graph.Adjacency()) && miner.graph.Simple()
    ensures RowsOf(miner.graph.Adjacency(), miner.graph.Rows())
    ensures miner.Ext() == MotifExt(miner.graph.Adjacency(), miner.graph.Rows())
  {
    RowsAreRows(miner.graph);
  }

  /** From the edges on, k - 2 extensions: every connected set of k vertices is there exactly once. */
  method EnumerateConnected(miner: VertexMiner, k: nat) returns (list: EmbeddingList)
    requires miner.Ready() && k >= 2
    ensures fresh(list) && list.Valid() && list.last_level == k - 1
    ensures HoldsEachOnce(miner.graph.Adjacency(), list.Embeddings(), k)
  {
    hide *;
    ReadyRows(miner);
    list := new EmbeddingList();
    ghost var edges := list.Init(miner.graph, k, false);
    FirstLevel(miner.graph.Adjacency(), list.Embeddings());
    for level := 1 to k - 1
      invariant list.Valid() && list.last_level == level && list.max_level == k
      invariant ListsCanonical(miner.graph.Adjacency(), list.Embeddings(), level + 1)
    {
      CanonicalExtensible(miner, list.Embeddings(), level + 1);
      NextIsCanonical(miner.graph.Adjacency(), miner.graph.Rows(), list.Embeddings(), level + 1);
      miner.ExtendVertex(level, list);
    }
    ExactlyOnce(miner.graph.Adjacency(), list.Embeddings(), k);
  }

  /** As many zeros as there are motifs to count. */
  function Zeros(k: nat): seq<nat> {
    seq(k, q => 0)
  }

  lemma {:induction false} NoCounts(counts: seq<seq<nat>>, k: nat, q: nat)
    requires forall t :: 0 <= t < |counts| ==> counts[t] == Zeros(k)
    ensures Total(counts, q) == 0
    decreases |counts|
  {
    if counts != [] {
      NoCounts(counts[..|counts| - 1], k, q);
    }
  }

  lemma PidsAreStored(miner: VertexMiner, es: seq<seq<nat>>, pids: seq<nat>)
    requires miner.max_size == 4 && ListsCanonical(miner.graph.Adjacency(), es, 3)
    requires miner.StoresPids(2) ==> PidsStored(miner.graph.Adjacency(), es, pids)
    ensures miner.ReadyToCount(2, es, pids)
  {
  }

  lemma EdgesAreReady(miner: VertexMiner, es: seq<seq<nat>>, pids: seq<nat>)
    requires ListsCanonical(miner.graph.Adjacency(), es, 2)
    ensures miner.ReadyToCount(1, es, pids)
  {
  }

  lemma CountersFor(counts: seq<seq<nat>>, threads: seq<nat>, nthreads: nat, n: nat)
    requires |counts| == nthreads && forall t :: 0 <= t < nthreads ==> counts[t] == Zeros(Kinds(n))
    requires forall pos :: 0 <= pos < |threads| ==> threads[pos] < nthreads
    ensures AllHaveCounters(counts, threads, n)
  {
  }

  lemma EmbeddingCount(list: EmbeddingList)
    requires list.Valid()
    ensures list.last_level < |list.vid_lists| && |list.Embeddings()| == |list.vid_lists[list.last_level]|
  {
  }

  lemma SameThreads(counts: seq<seq<nat>>, counts': seq<seq<nat>>)
    ensures SameShape(counts, counts') ==> |counts'| == |counts|
  {
  }

  /** A 3-motif run on any number of threads, the edges dealt out to them in any way: over all threads, the first
      counter is the number of triangles and the second that of wedges. */
  method CountThreeMotifs(miner: VertexMiner, nthreads: nat, thread: nat -> nat) returns (counts: seq<seq<nat>>)
    requires miner.Ready()
    requires forall pos :: thread(pos) < nthreads
    ensures |counts| == nthreads
    ensures Total(counts, 0) == |Triangles(miner.graph.Adjacency())|
    ensures Total(counts, 1) == |Wedges(miner.graph.Adjacency())|
  {
    hide *;
    ReadyRows(miner);
    var list := new EmbeddingList();
    ghost var edges := list.Init(miner.graph, 2, false);
    FirstLevel(miner.graph.Adjacency(), list.Embeddings());
    EdgesAreReady(miner, list.Embeddings(), list.pid_list);
    var zeros := seq(nthreads, t => Zeros(Kinds(2)));
    NoCounts(zeros, Kinds(2), 0);
    NoCounts(zeros, Kinds(2), 1);
    EmbeddingCount(list);
    var threads := seq(|list.vid_lists[list.last_level]|, pos requires 0 <= pos => thread(pos));
    CountersFor(zeros, threads, nthreads, 2);
    counts := miner.AggregateThree(list, threads, zeros);
    SameThreads(zeros, counts);
  }

  /** A 4-motif run on any number of threads, the embeddings dealt out to them in any way:
      over all threads, each motif's counter is its number of occurrences. */
  method CountFourMotifs(miner: VertexMiner, nthreads: nat, thread: nat -> nat) returns (counts: seq<seq<nat>>)
    requires miner.Ready() && miner.max_size == 4
    requires forall pos :: thread(pos) < nthreads
    ensures |counts| == nthreads
    ensures forall pid :: 0 <= pid < 6 ==> Total(counts, pid) == |MotifSets(miner.graph.Adjacency(), pid)|
  {
    hide *;
    ReadyRows(miner);
    var list := new EmbeddingList();
    ghost var edges := list.Init(miner.graph, 3, false);
    FirstLevel(miner.graph.Adjacency(), list.Embeddings());
    CanonicalExtensible(miner, list.Embeddings(), 2);
    NextIsCanonical(miner.graph.Adjacency(), miner.graph.Rows(), list.Embeddings(), 2);
    miner.ExtendVertex(1, list);
    PidsAreStored(miner, list.Embeddings(), list.pid_list);
    var zeros := seq(nthreads, t => Zeros(Kinds(3)));
    forall pid | 0 <= pid < 6 ensures Total(zeros, pid) == 0 {
      NoCounts(zeros, Kinds(3), pid);
    }
    EmbeddingCount(list);
    var threads := seq(|list.vid_lists[list.last_level]|, pos requires 0 <= pos => thread(pos));
    CountersFor(zeros, threads, nthreads, 3);
    counts := miner.AggregateFour(list, threads, zeros);
    SameThreads(zeros, counts);
  }

  // ---------- Cliques ----------

  lemma ChainsInRange(adj: Adjacency, es: seq<seq<nat>>, k: nat)
    requires ListsChains(adj, es, k) && k > 0
    ensures forall e :: e in es ==> InRange(adj, e)
  {
    forall e | e in es ensures InRange(adj, e) {
      ChainsMember(adj, k, e);
    }
  }

  lemma DagRows(miner: VertexMiner)
    requires miner.ReadyDag()
    ensures Loopless(miner.graph.Adjacency()) && miner.graph.Simple()
    ensures RowsOf(miner.graph.Adjacency(), miner.graph.Rows())
    ensures miner.ExtClique() == CliqueExt(miner.graph.Adjacency(), miner.graph.Rows())
  {
    RowsAreRows(miner.graph);
  }

  /** A clique run on the oriented graph counts each clique of the original once. */
  method CountCliques(miner: VertexMiner, ghost original: Adjacency) returns (num: nat)
    requires miner.ReadyDag() && Undirected(original) && miner.graph.Adjacency() == Oriented(original)
             && miner.max_size >= 3
    ensures num == |CliquesOf(original, miner.max_size)|
  {
    hide *;
    DagRows(miner);
    ghost var adj, rows := miner.graph.Adjacency(), miner.graph.Rows();
    var k := miner.max_size;
    var list := new EmbeddingList();
    ghost var edges := list.Init(miner.graph, k, true);
    FirstChains(adj, list.Embeddings());
    num := 0;
    var level := 1;
    while level < k - 2
      invariant 1 <= level <= k - 2 && num == 0
      invariant list.Valid() && list.last_level == level && list.max_level == k
      invariant ListsChains(adj, list.Embeddings(), level + 1)
    {
      ChainsInRange(adj, list.Embeddings(), level + 1);
      NextChains(adj, rows, list.Embeddings(), level + 1);
      num := miner.ExtendClique(level, list, num);
      level := level + 1;
    }
    ChainsInRange(adj, list.Embeddings(), k - 1);
    NextChains(adj, rows, list.Embeddings(), k - 1);
    ListedChains(adj, NextLevel(list.Embeddings(), CliqueExt(adj, rows)), k);
    num := miner.ExtendClique(level, list, num);
    OrientedChains(original, k);
  }
}
