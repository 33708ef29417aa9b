/** Partitioning a graph (sansa/src/common/graph_partition.cc). */
module GraphPartition {
  import opened Counting
  import opened CsrGraph
  import opened Scan
  import opened Cliques
  import opened Scheduling
  import opened Induced
  import opened SubgraphBuilder
  import opened Clusters
  import opened Partition2D
  import opened FetchedGraph
  import opened FetchPartitions

  // ---------- Edge-cut partitions ----------

  /** Each partition has one chunk of the vertices; the last ones may be small or empty. */
  function SubgraphSize(nv: nat, n: nat): nat
    requires n > 0
  {
    if nv % n != 0 then nv / n + 1 else nv / n
  }

  function ChunkBegin(nv: nat, n: nat, i: nat): nat
    requires n > 0
  {
    SubgraphSize(nv, n) * i
  }

  function ChunkEnd(nv: nat, n: nat, i: nat): nat
    requires n > 0
  {
    Min(SubgraphSize(nv, n) * i + SubgraphSize(nv, n), nv)
  }

  lemma ChunksMeet(nv: nat, n: nat, i: nat)
    requires n > 0
    ensures ChunkBegin(nv, n, 0) == 0
    ensures ChunkEnd(nv, n, i) == Min(ChunkBegin(nv, n, i + 1), nv)
    ensures ChunkBegin(nv, n, i) <= ChunkBegin(nv, n, i + 1)
    ensures ChunkBegin(nv, n, n) >= nv
  {
    var size := SubgraphSize(nv, n);
    assert size * (i + 1) == size * i + size;
    assert nv == n * (nv / n) + nv % n;
    assert size * n >= nv;
  }

  /** The number of chains counted in partitions 0..m, each from its local range. */
  ghost function CountedIn(subgraphs: seq<Csr>, local_begin: seq<nat>, local_end: seq<nat>, k: nat, m: nat): nat
    requires m <= |subgraphs| == |local_begin| == |local_end|
  {
    if m == 0 then 0
    else CountedIn(subgraphs, local_begin, local_end, k, m - 1)
         + |Rooted(subgraphs[m - 1].Adjacency(), k, local_begin[m - 1], local_end[m - 1])|
  }

  ghost predicate ArePartitions(g: Csr, n: nat, idx_map: seq<seq<nat>>, subgraphs: seq<Csr>, local_begin: seq<nat>,
                                local_end: seq<nat>, m: nat)
    requires g.WellFormed() && n > 0
  {
    && m <= |idx_map| && |idx_map| == |subgraphs| == |local_begin| == |local_end|
    && forall i :: 0 <= i < m ==>
         IsPart(g, ChunkBegin(g.V(), n, i), ChunkEnd(g.V(), n, i), idx_map[i], subgraphs[i], local_begin[i],
                local_end[i])
  }

  lemma RootedSplit(adj: Adjacency, k: nat, nv: nat, b: nat, e: nat)
    requires b <= e && k >= 1 && |adj| == nv
    ensures |Rooted(adj, k, 0, Min(e, nv))| == |Rooted(adj, k, 0, Min(b, nv))| + |Rooted(adj, k, b, Min(e, nv))|
  {
    var whole, low, high := Rooted(adj, k, 0, Min(e, nv)), Rooted(adj, k, 0, Min(b, nv)), Rooted(adj, k, b, Min(e, nv));
    forall p | p in ChainsOf(adj, k) ensures Root(p) < nv {
      ChainsMember(adj, k, p);
    }
    assert whole == low + high;
    assert low !! high;
  }

  lemma NothingCounted(g: Csr, n: nat, idx_map: seq<seq<nat>>, subgraphs: seq<Csr>, local_begin: seq<nat>,
                       local_end: seq<nat>, k: nat)
    requires g.WellFormed() && n > 0
    requires ArePartitions(g, n, idx_map, subgraphs, local_begin, local_end, |subgraphs|)
    ensures |subgraphs| == |local_begin| == |local_end|
    ensures CountedIn(subgraphs, local_begin, local_end, k, 0) == 0 == Min(0, g.V())
  {
  }

  lemma PartAt(g: Csr, n: nat, idx_map: seq<seq<nat>>, subgraphs: seq<Csr>, local_begin: seq<nat>,
               local_end: seq<nat>, k: nat, i: nat)
    requires g.WellFormed() && n > 0 && i < |subgraphs|
    requires ArePartitions(g, n, idx_map, subgraphs, local_begin, local_end, |subgraphs|)
    ensures |idx_map| == |subgraphs| == |local_begin| == |local_end|
    ensures IsPart(g, ChunkBegin(g.V(), n, i), ChunkEnd(g.V(), n, i), idx_map[i], subgraphs[i], local_begin[i],
                   local_end[i])
    ensures CountedIn(subgraphs, local_begin, local_end, k, i + 1)
            == CountedIn(subgraphs, local_begin, local_end, k, i)
               + |Rooted(subgraphs[i].Adjacency(), k, local_begin[i], local_end[i])|
  {
    hide IsPart, Rooted;
  }

  lemma RootedNothing(adj: Adjacency, k: nat)
    ensures Rooted(adj, k, 0, 0) == {}
  {
  }

  lemma {:induction false} PrefixCounted(g: Csr, n: nat, idx_map: seq<seq<nat>>, subgraphs: seq<Csr>,
                                         local_begin: seq<nat>, local_end: seq<nat>, k: nat, m: nat)
    requires g.Simple() && n > 0 && k >= 1 && m <= |subgraphs|
    requires ArePartitions(g, n, idx_map, subgraphs, local_begin, local_end, |subgraphs|)
    ensures CountedIn(subgraphs, local_begin, local_end, k, m)
            == |Rooted(g.Adjacency(), k, 0, Min(ChunkBegin(g.V(), n, m), g.V()))|
    decreases m
  {
    hide *;
    SimpleIsWellFormed(g);
    if m == 0 {
      ChunksMeet(g.V(), n, 0);
      RootedNothing(g.Adjacency(), k);
      NothingCounted(g, n, idx_map, subgraphs, local_begin, local_end, k);
    } else {
      PartAt(g, n, idx_map, subgraphs, local_begin, local_end, k, m - 1);
      PrefixCounted(g, n, idx_map, subgraphs, local_begin, local_end, k, m - 1);
      ChunksMeet(g.V(), n, m - 1);
      var b, e := ChunkBegin(g.V(), n, m - 1), ChunkEnd(g.V(), n, m - 1);
      PartCounts(g, b, e, idx_map[m - 1], subgraphs[m - 1], local_begin[m - 1], local_end[m - 1], k);
      RootedSplit(g.Adjacency(), k, g.V(), b, ChunkBegin(g.V(), n, m));
    }
  }

  lemma RootedAll(adj: Adjacency, k: nat)
    requires k >= 1
    ensures Rooted(adj, k, 0, |adj|) == ChainsOf(adj, k)
  {
    forall p | p in ChainsOf(adj, k) ensures Root(p) < |adj| {
      ChainsMember(adj, k, p);
    }
  }

  /** Counting chains of k vertices (triangles for k = 3) from the local ranges of all partitions counts each chain
      of the whole graph once. */
  lemma PartitionsCountOnce(g: Csr, n: nat, idx_map: seq<seq<nat>>, subgraphs: seq<Csr>, local_begin: seq<nat>,
                            local_end: seq<nat>, k: nat)
    requires g.Simple() && n > 0 && k >= 1 && |subgraphs| == n
    requires ArePartitions(g, n, idx_map, subgraphs, local_begin, local_end, n)
    ensures CountedIn(subgraphs, local_begin, local_end, k, n) == |ChainsOf(g.Adjacency(), k)|
    ensures Undirected(g.Adjacency()) ==>
              CountedIn(subgraphs, local_begin, local_end, k, n) == Factorial(k) * |CliquesOf(g.Adjacency(), k)|
  {
    hide ChainsOf, CliquesOf, Rooted, ArePartitions, ChunkBegin, Undirected, Factorial;
    PrefixCounted(g, n, idx_map, subgraphs, local_begin, local_end, k, n);
    ChunksMeet(g.V(), n, 0);
    RootedAll(g.Adjacency(), k);
    if Undirected(g.Adjacency()) {
      UndirectedChains(g.Adjacency(), k);
    }
  }

  // ---------- Marking ----------

  ghost predicate Marks(g: Csr, begin: nat, end: nat, v_masks: seq<nat>)
    requires g.WellFormed()
  {
    && |v_masks| == g.V()
    && forall v :: 0 <= v < g.V() ==> v_masks[v] == if InChunkHull(g, begin, end, v) then 1 else 0
  }

  lemma HullGrows(g: Csr, begin: nat, v: nat, w: nat)
    requires g.Simple() && begin <= v < g.V() && w < g.V()
    ensures InChunkHull(g, begin, v + 1, w) <==> InChunkHull(g, begin, v, w) || w == v || w in g.N(v)
  {
  }

  lemma HullEmpty(g: Csr, begin: nat, end: nat, w: nat)
    requires g.WellFormed() && end <= begin
    ensures !InChunkHull(g, begin, end, w)
  {
  }

  method MarkNeighbors(g: Csr, v: nat, v_masks: array<nat>)
    requires g.Simple() && v < g.V() && v_masks.Length == g.V()
    modifies v_masks
    ensures forall w :: 0 <= w < g.V() ==> v_masks[w] == if w == v || w in g.N(v) then 1 else old(v_masks[w])
  {
    v_masks[v] := 1;
    var row := g.N(v);
    for e := 0 to |row|
      invariant forall w :: 0 <= w < g.V() ==> v_masks[w] == if w == v || w in row[..e] then 1 else old(v_masks[w])
    {
      assert row[..e + 1] == row[..e] + [row[e]];
      assert row[e] in row;
      v_masks[row[e]] := 1;
    }
    assert row[..|row|] == row;
  }

  method MarkChunk(g: Csr, begin: nat, end: nat, v_masks: array<nat>)
    requires g.Simple() && end <= g.V() && v_masks.Length == g.V()
    requires forall w :: 0 <= w < g.V() ==> v_masks[w] == 0
    modifies v_masks
    ensures Marks(g, begin, end, v_masks[..])
  {
    hide InChunkHull;
    forall w | 0 <= w < g.V()
      ensures !InChunkHull(g, begin, begin, w) && (end <= begin ==> !InChunkHull(g, begin, end, w))
    {
      HullEmpty(g, begin, begin, w);
      if end <= begin {
        HullEmpty(g, begin, end, w);
      }
    }
    var v := begin;
    while v < end
      invariant begin <= v && (begin <= end ==> v <= end) && (end <= begin ==> v == begin)
      invariant forall w :: 0 <= w < g.V() ==> v_masks[w] == if InChunkHull(g, begin, v, w) then 1 else 0
    {
      forall w | 0 <= w < g.V()
        ensures InChunkHull(g, begin, v + 1, w) <==> InChunkHull(g, begin, v, w) || w == v || w in g.N(v)
      {
        HullGrows(g, begin, v, w);
      }
      MarkNeighbors(g, v, v_masks);
      v := v + 1;
    }
  }

  // ---------- Listing the marked vertices ----------

  function IsMarked(v_masks: seq<nat>): nat -> bool {
    (v: nat) => v < |v_masks| && v_masks[v] != 0
  }

  /** The offsets of 0/1 masks number the marked vertices. */
  lemma {:induction false} OffsetIsCount(v_masks: seq<nat>, v: nat)
    requires v <= |v_masks| && forall w :: 0 <= w < |v_masks| ==> v_masks[w] <= 1
    ensures SumRange(v_masks, 0, v) == |Filter(Ascending(v), IsMarked(v_masks))|
    decreases v
  {
    if v > 0 {
      OffsetIsCount(v_masks, v - 1);
      AscendingStep(v - 1);
      assert Ascending(v)[..v - 1] == Ascending(v - 1);
    }
  }

  lemma AscendingFilter(v_masks: seq<nat>, v: nat)
    ensures Filter(Ascending(v + 1), IsMarked(v_masks))
            == Filter(Ascending(v), IsMarked(v_masks)) + if IsMarked(v_masks)(v) then [v] else []
    ensures Filter(Ascending(0), IsMarked(v_masks)) == []
  {
    AscendingStep(v);
    assert Ascending(v + 1)[..v] == Ascending(v);
  }

  lemma MarkedAreListed(v_masks: seq<nat>)
    ensures ListsMask(v_masks, Filter(Ascending(|v_masks|), IsMarked(v_masks)))
  {
    var all, p := Ascending(|v_masks|), IsMarked(v_masks);
    FilterIncreasing(all, p);
    FilterMembers(all, p);
    forall v: nat ensures v in Filter(all, p) <==> v < |v_masks| && v_masks[v] != 0 {
      if v < |v_masks| {
        assert all[v] == v;
      }
    }
  }

  lemma OffsetAt(v_masks: seq<nat>, offsets: seq<nat>, v: nat)
    requires IsPrefixSum(v_masks, offsets) && v <= |v_masks| && forall w :: 0 <= w < |v_masks| ==> v_masks[w] <= 1
    ensures |offsets| == |v_masks| + 1 && offsets[v] == |Filter(Ascending(v), IsMarked(v_masks))|
  {
    OffsetIsCount(v_masks, v);
  }

  lemma OffsetsGrow(v_masks: seq<nat>, offsets: seq<nat>, v: nat)
    requires IsPrefixSum(v_masks, offsets) && v < |v_masks| && forall w :: 0 <= w < |v_masks| ==> v_masks[w] <= 1
    ensures |offsets| == |v_masks| + 1 && offsets[v + 1] <= offsets[|v_masks|]
    ensures offsets[v + 1] == |Filter(Ascending(v + 1), IsMarked(v_masks))|
  {
    PrefixMonotone(v_masks, offsets);
    OffsetIsCount(v_masks, v + 1);
  }

  lemma MarkedIs(v_masks: seq<nat>, v: nat)
    requires v < |v_masks|
    ensures IsMarked(v_masks)(v) <==> v_masks[v] != 0
  {
  }

  /** Every marked vertex to its offset. */
  method ListMarked(v_masks: seq<nat>, blockSize: nat) returns (ids: seq<nat>)
    requires blockSize > 0 && forall w :: 0 <= w < |v_masks| ==> v_masks[w] <= 1
    ensures ListsMask(v_masks, ids)
  {
    hide *;
    ghost var p := IsMarked(v_masks);
    var nv := |v_masks|;
    var offsets := ParallelPrefixSum(v_masks, blockSize);
    OffsetAt(v_masks, offsets, nv);
    var idx := new nat[offsets[nv]];
    AscendingFilter(v_masks, 0);
    for v := 0 to nv
      invariant |Filter(Ascending(v), p)| <= idx.Length
      invariant idx[..|Filter(Ascending(v), p)|] == Filter(Ascending(v), p)
    {
      OffsetAt(v_masks, offsets, v);
      AscendingFilter(v_masks, v);
      MarkedIs(v_masks, v);
      OffsetsGrow(v_masks, offsets, v);
      if v_masks[v] != 0 {
        ghost var before := idx[..offsets[v]];
        idx[offsets[v]] := v;
        assert idx[..offsets[v] + 1] == before + [v];
      }
    }
    MarkedAreListed(v_masks);
    ids := idx[..];
    assert ids == idx[..idx.Length];
  }

  // ---------- One partition ----------

  lemma HullNeedsChunk(g: Csr, begin: nat, end: nat, v: nat)
    requires g.WellFormed() && InChunkHull(g, begin, end, v)
    ensures begin < end
  {
  }

  /** The chunk and its neighbours, listed; the chunk is a contiguous range of the list. */
  lemma PartIsMade(g: Csr, begin: nat, end: nat, v_masks: seq<nat>, ids: seq<nat>, sub: Csr, lb0: nat, le0: nat,
                   lb: nat, le: nat)
    requires g.WellFormed() && Marks(g, begin, end, v_masks) && ListsMask(v_masks, ids) && IsInduced(g, ids, sub)
    requires IsLocalRange(ids, begin, end, lb0, le0, lb, le) && end <= g.V()
    ensures IsPart(g, begin, end, ids, sub, lb, le)
  {
    hide IsInduced;
    forall v: nat ensures v in ids <==> InChunkHull(g, begin, end, v) {
    }
    if ids != [] {
      assert ids[0] in ids;
      HullNeedsChunk(g, begin, end, ids[0]);
      assert InChunkHull(g, begin, end, begin) && InChunkHull(g, begin, end, end - 1);
      assert begin in ids && end - 1 in ids;
    }
  }

  lemma MarksAreBits(g: Csr, begin: nat, end: nat, v_masks: seq<nat>)
    requires g.WellFormed() && Marks(g, begin, end, v_masks)
    ensures |v_masks| == g.V() && forall w :: 0 <= w < |v_masks| ==> v_masks[w] <= 1
  {
  }

  // ---------- Blocks on file ----------

  /** The files hold the blocks of edges between any two clusters. */
  ghost predicate Written(g: Csr, cluster_ids: seq<nat>, nc: nat, files: PartitionFiles)
    requires g.WellFormed() && g.V() == |cluster_ids|
  {
    exists rowptr, colidx :: AreBlocks(g, cluster_ids, nc, rowptr, colidx) && Holds(files, rowptr, colidx)
  }

  lemma WrittenWith(g: Csr, cluster_ids: seq<nat>, nc: nat, files: PartitionFiles, rowptr: seq<seq<nat>>,
                    colidx: seq<seq<nat>>)
    requires g.WellFormed() && g.V() == |cluster_ids|
    requires AreBlocks(g, cluster_ids, nc, rowptr, colidx)
    requires IsConcatenation(rowptr, files.voffsets, files.vertices)
             && IsConcatenation(colidx, files.eoffsets, files.edges)
    ensures Written(g, cluster_ids, nc, files) && Holds(files, rowptr, colidx)
  {
    hide AreBlocks, IsConcatenation;
  }

  lemma WhatIsWritten(g: Csr, cluster_ids: seq<nat>, nc: nat, files: PartitionFiles)
    returns (rowptr: seq<seq<nat>>, colidx: seq<seq<nat>>)
    requires g.WellFormed() && g.V() == |cluster_ids| && Written(g, cluster_ids, nc, files)
    ensures AreBlocks(g, cluster_ids, nc, rowptr, colidx) && Holds(files, rowptr, colidx)
  {
    hide AreBlocks, Holds;
    rowptr, colidx :| AreBlocks(g, cluster_ids, nc, rowptr, colidx) && Holds(files, rowptr, colidx);
  }

  /** The blocks of edges between any two clusters, written out. */
  method WriteBlocks(g: Csr, cluster_ids: seq<nat>, nc: nat, verts_of_clusters: seq<seq<nat>>,
                     vertex_rank_in_cluster: seq<nat>, blockSize: nat)
    returns (files: PartitionFiles)
    requires g.Simple() && Clustered(cluster_ids, nc, g.V()) && blockSize > 0
    requires Lists(cluster_ids, nc, verts_of_clusters, vertex_rank_in_cluster)
    ensures g.WellFormed() && g.V() == |cluster_ids| && Written(g, cluster_ids, nc, files)
    ensures HasParts(nc, files) && |verts_of_clusters| == nc
    ensures forall i, j :: 0 <= i < nc && 0 <= j < nc ==>
              BlockInFiles(g.Adjacency(), cluster_ids, nc, verts_of_clusters[i], i, j, files)
  {
    hide *;
    var rowptr, colidx := MakeBlocks(g, cluster_ids, nc, verts_of_clusters, vertex_rank_in_cluster);
    var voffsets, vertices := WriteParts(rowptr, blockSize);
    var eoffsets, edges := WriteParts(colidx, blockSize);
    files := PartitionFiles(voffsets, eoffsets, vertices, edges);
    WrittenWith(g, cluster_ids, nc, files, rowptr, colidx);
    FilesHaveParts(nc, files, rowptr, colidx);
    forall i, j | 0 <= i < nc && 0 <= j < nc
      ensures BlockInFiles(g.Adjacency(), cluster_ids, nc, verts_of_clusters[i], i, j, files)
    {
      BlockIsInFiles(g.Adjacency(), cluster_ids, nc, verts_of_clusters[i], i, j, files, rowptr, colidx);
    }
  }

  // ---------- The partitioner ----------

  /** Mark, list, generate, and clear the marks again. */
  method MakePart(g: Csr, begin: nat, end: nat, vertex_masks: array<nat>, lb0: nat, le0: nat, blockSize: nat)
    returns (ids: seq<nat>, sub: Csr, lb: nat, le: nat)
    requires g.Simple() && end <= g.V() && blockSize > 0
    requires vertex_masks.Length == g.V() && forall w :: 0 <= w < vertex_masks.Length ==> vertex_masks[w] == 0
    modifies vertex_masks
    ensures g.WellFormed() && IsPart(g, begin, end, ids, sub, lb, le)
    ensures forall w :: 0 <= w < vertex_masks.Length ==> vertex_masks[w] == 0
  {
    hide *;
    SimpleIsWellFormed(g);
    MarkChunk(g, begin, end, vertex_masks);
    MarksAreBits(g, begin, end, vertex_masks[..]);
    ids := ListMarked(vertex_masks[..], blockSize);
    sub, lb, le := GenerateInducedSubgraph(g, vertex_masks[..], ids, begin, end, lb0, le0, blockSize);
    PartIsMade(g, begin, end, vertex_masks[..], ids, sub, lb0, le0, lb, le);
    forall w | 0 <= w < vertex_masks.Length {
      vertex_masks[w] := 0;
    }
  }

  lemma ChunkIs(nv: nat, n: nat, i: nat, size: nat)
    requires n > 0 && size == SubgraphSize(nv, n)
    ensures ChunkBegin(nv, n, i) == Times(size, i)
    ensures ChunkEnd(nv, n, i) == (if Times(size, i) + size > nv then nv else Times(size, i) + size) <= nv
  {
  }

  ghost predicate AreChunks(nv: nat, n: nat, begin_vids: seq<nat>, end_vids: seq<nat>, m: nat)
    requires n > 0
  {
    && m <= |begin_vids| == |end_vids|
    && forall j :: 0 <= j < m ==> begin_vids[j] == ChunkBegin(nv, n, j) && end_vids[j] == ChunkEnd(nv, n, j)
  }

  /** The chunks follow one another, all of one size up to the last vertex, and the size is the average rounded up. */
  ghost predicate EvenChunks(nv: nat, n: nat, size: nat, begin_vids: seq<nat>, end_vids: seq<nat>) {
    && n * size >= nv && (nv > 0 ==> n * (size - 1) < nv) && (nv == 0 ==> size == 0)
    && |begin_vids| == |end_vids| == n
    && forall i :: 0 <= i < n ==>
         && begin_vids[i] == size * i
         && end_vids[i] == if size * (i + 1) <= nv then size * (i + 1) else nv
  }

  /** The smallest size with which n chunks hold all vertices. */
  lemma SizeIsCeiling(nv: nat, n: nat)
    requires n > 0
    ensures var size := SubgraphSize(nv, n);
            n * size >= nv && (nv > 0 ==> n * (size - 1) < nv) && (nv == 0 ==> size == 0)
  {
    var d := nv / n;
    assert nv == n * d + nv % n;
    assert n * (d + 1) == n * d + n && n * (d - 1) == n * d - n;
  }

  lemma ChunksAreEven(nv: nat, n: nat, begin_vids: seq<nat>, end_vids: seq<nat>)
    requires n > 0 && |begin_vids| == n && AreChunks(nv, n, begin_vids, end_vids, n)
    ensures EvenChunks(nv, n, SubgraphSize(nv, n), begin_vids, end_vids)
  {
    SizeIsCeiling(nv, n);
    var size := SubgraphSize(nv, n);
    hide SubgraphSize;
    forall i | 0 <= i < n
      ensures begin_vids[i] == size * i && end_vids[i] == if size * (i + 1) <= nv then size * (i + 1) else nv
    {
      assert size * (i + 1) == size * i + size;
    }
  }

  lemma OneMoreChunk(nv: nat, n: nat, begin_vids: seq<nat>, end_vids: seq<nat>, i: nat)
    requires n > 0 && AreChunks(nv, n, begin_vids, end_vids, i) && i < |begin_vids|
    ensures |begin_vids| == |end_vids|
    ensures AreChunks(nv, n, begin_vids[i := ChunkBegin(nv, n, i)], end_vids[i := ChunkEnd(nv, n, i)], i + 1)
  {
    hide ChunkBegin, ChunkEnd;
  }

  lemma NoPartitions(g: Csr, n: nat, idx_map: seq<seq<nat>>, subgraphs: seq<Csr>, local_begin: seq<nat>,
                     local_end: seq<nat>)
    requires g.WellFormed() && n > 0 && |idx_map| == |subgraphs| == |local_begin| == |local_end|
    ensures ArePartitions(g, n, idx_map, subgraphs, local_begin, local_end, 0)
    ensures forall nv: nat, b: seq<nat>, e: seq<nat> :: |b| == |e| ==> AreChunks(nv, n, b, e, 0)
  {
  }

  lemma OneMorePartition(g: Csr, n: nat, idx_map: seq<seq<nat>>, subgraphs: seq<Csr>, local_begin: seq<nat>,
                         local_end: seq<nat>, i: nat, ids: seq<nat>, sub: Csr, lb: nat, le: nat)
    requires g.WellFormed() && n > 0 && ArePartitions(g, n, idx_map, subgraphs, local_begin, local_end, i)
             && i < |idx_map|
    requires IsPart(g, ChunkBegin(g.V(), n, i), ChunkEnd(g.V(), n, i), ids, sub, lb, le)
    ensures |idx_map| == |subgraphs| == |local_begin| == |local_end|
    ensures ArePartitions(g, n, idx_map[i := ids], subgraphs[i := sub], local_begin[i := lb], local_end[i := le], i + 1)
  {
    hide IsPart, ChunkBegin, ChunkEnd;
  }

  lemma PartOfChunk(g: Csr, n: nat, idx_map: seq<seq<nat>>, subgraphs: seq<Csr>, local_begin: seq<nat>,
                    local_end: seq<nat>, begin_vids: seq<nat>, end_vids: seq<nat>)
    requires g.WellFormed() && n > 0 && AreChunks(g.V(), n, begin_vids, end_vids, n) && |begin_vids| == n
    requires ArePartitions(g, n, idx_map, subgraphs, local_begin, local_end, n) && |subgraphs| == n
    ensures |end_vids| == |idx_map| == |local_begin| == |local_end| == n
    ensures forall i :: 0 <= i < n ==>
              IsPart(g, begin_vids[i], end_vids[i], idx_map[i], subgraphs[i], local_begin[i], local_end[i])
  {
    hide IsPart, ChunkBegin, ChunkEnd;
  }

  class PartitionedGraph {
    const g: Option<Csr>
    const num_vertex_chunks: nat
    const num_2D_partitions: nat
    var verts_of_clusters: seq<seq<nat>>
    var vertex_rank_in_cluster: seq<nat>
    var num_subgraphs: nat
    var subgraphs: seq<Csr>
    var begin_vids: seq<nat>
    var end_vids: seq<nat>
    var local_begin: seq<nat>
    var local_end: seq<nat>
    var idx_map: seq<seq<nat>>

    /** What the constructors leave, and every method keeps, as none changes these three fields: the graph and the
        clusters are never both there. */
    ghost predicate AsBuilt()
      reads this
    {
      g == None || (verts_of_clusters == [] && num_vertex_chunks > 1)
    }

    /** What writing the blocks of this object takes. */
    ghost predicate Ready(cluster_ids: seq<nat>)
      reads this
    {
      && g.Some? && g.value.Simple() && Clustered(cluster_ids, num_vertex_chunks, g.value.V())
      && Lists(cluster_ids, num_vertex_chunks, verts_of_clusters, vertex_rank_in_cluster)
    }

    constructor Empty()
      ensures g == None && num_vertex_chunks == 0 && AsBuilt()
    {
      g, num_vertex_chunks, num_2D_partitions := None, 0, 0;
      verts_of_clusters, vertex_rank_in_cluster := [], [];
      num_subgraphs := 0;
      subgraphs, begin_vids, end_vids, local_begin, local_end, idx_map := [], [], [], [], [], [];
    }

    constructor (graph: Csr, nc: nat)
      requires nc > 1
      ensures g == Some(graph) && num_vertex_chunks == nc && AsBuilt()
    {
      g, num_vertex_chunks, num_2D_partitions := Some(graph), nc, 0;
      verts_of_clusters, vertex_rank_in_cluster := [], [];
      num_subgraphs := 0;
      subgraphs, begin_vids, end_vids, local_begin, local_end, idx_map := [], [], [], [], [], [];
    }

    /** Sorts the vertices into clusters. The parameter hides the member, which stays unset. */
    constructor WithClusters(graph: Csr, nc: nat, cluster_ids: seq<nat>)
      requires graph.Simple() && Clustered(cluster_ids, nc, graph.V())
      ensures g == None && num_vertex_chunks == nc && num_2D_partitions == nc * nc && AsBuilt()
      ensures Lists(cluster_ids, nc, verts_of_clusters, vertex_rank_in_cluster)
    {
      g, num_vertex_chunks, num_2D_partitions := None, nc, nc * nc;
      num_subgraphs := 0;
      subgraphs, begin_vids, end_vids, local_begin, local_end, idx_map := [], [], [], [], [], [];
      var verts, ranks := FillClusters(|cluster_ids|, nc, cluster_ids);
      verts_of_clusters, vertex_rank_in_cluster := verts, ranks;
    }

    /** Writes the blocks of edges between any two clusters. */
    method Partition2D(cluster_ids: seq<nat>, blockSize: nat) returns (files: PartitionFiles)
      requires Ready(cluster_ids) && blockSize > 0
      ensures g.value.WellFormed() && g.value.V() == |cluster_ids|
      ensures Written(g.value, cluster_ids, num_vertex_chunks, files) && HasParts(num_vertex_chunks, files)
      ensures |verts_of_clusters| == num_vertex_chunks
      ensures forall i, j :: 0 <= i < num_vertex_chunks && 0 <= j < num_vertex_chunks ==>
                BlockInFiles(g.value.Adjacency(), cluster_ids, num_vertex_chunks, verts_of_clusters[i], i, j, files)
    {
      files := WriteBlocks(g.value, cluster_ids, num_vertex_chunks, verts_of_clusters, vertex_rank_in_cluster,
                           blockSize);
    }

    /** Reads the blocks between the given clusters back, as the subgraph induced on their vertices. The member g is not
        used: the graph is the one the files were written from. */
    method FetchPartitions(ghost graph: Csr, files: PartitionFiles, clusters: seq<nat>, ghost cluster_ids: seq<nat>,
                           blockSize: nat)
      returns (subg: Csr)
      requires graph.Simple() && Clustered(cluster_ids, num_vertex_chunks, graph.V()) && blockSize > 0
      requires Lists(cluster_ids, num_vertex_chunks, verts_of_clusters, vertex_rank_in_cluster)
      requires graph.WellFormed() && Written(graph, cluster_ids, num_vertex_chunks, files)
      requires NoDuplicates(clusters) && forall a :: 0 <= a < |clusters| ==> clusters[a] < num_vertex_chunks
      ensures IsInduced(graph, ChosenIds(cluster_ids, clusters), subg)
    {
      hide *;
      VertexCount(graph);
      ClusteredLength(cluster_ids, num_vertex_chunks, graph.V());
      ghost var rowptr, colidx := WhatIsWritten(graph, cluster_ids, num_vertex_chunks, files);
      subg := FetchSubgraph(graph, cluster_ids, num_vertex_chunks, verts_of_clusters, vertex_rank_in_cluster, files,
                            clusters, blockSize, rowptr, colidx);
    }

    /** One induced subgraph for each chunk of the vertices. */
    method EdgecutInducedPartition1D(blockSize: nat) returns (ghost size: nat)
      requires g.Some? && g.value.Simple() && num_vertex_chunks > 0 && blockSize > 0
      modifies this
      ensures verts_of_clusters == old(verts_of_clusters) && vertex_rank_in_cluster == old(vertex_rank_in_cluster)
      ensures num_subgraphs == num_vertex_chunks == |subgraphs| == |begin_vids| == |end_vids| == |idx_map|
              == |local_begin| == |local_end|
      ensures EvenChunks(g.value.V(), num_vertex_chunks, size, begin_vids, end_vids)
      ensures AreChunks(g.value.V(), num_vertex_chunks, begin_vids, end_vids, num_subgraphs)
      ensures forall i :: 0 <= i < num_subgraphs ==>
                IsPart(g.value, begin_vids[i], end_vids[i], idx_map[i], subgraphs[i], local_begin[i], local_end[i])
      ensures ArePartitions(g.value, num_vertex_chunks, idx_map, subgraphs, local_begin, local_end, num_subgraphs)
    {
      hide *;
      var g := g.value;
      SimpleIsWellFormed(g);
      VertexCount(g);
      var nv := |g.vertices| - 1;
      num_subgraphs := num_vertex_chunks;
      var n := num_subgraphs;
      var subgraph_size := SubgraphSize(nv, n);
      subgraphs := seq(n, i => Csr([0], []));
      idx_map := ResizedQueues(idx_map, n);
      begin_vids, end_vids := Resized(begin_vids, n), Resized(end_vids, n);
      local_begin, local_end := Resized(local_begin, n), Resized(local_end, n);
      var vertex_masks := new nat[nv](i => 0);
      NoPartitions(g, n, idx_map, subgraphs, local_begin, local_end);
      for i := 0 to n
        invariant num_subgraphs == n && |subgraphs| == |idx_map| == |begin_vids| == |end_vids| == |local_begin|
                  == |local_end| == n
        invariant verts_of_clusters == old(verts_of_clusters) && vertex_rank_in_cluster == old(vertex_rank_in_cluster)
        invariant AreChunks(nv, n, begin_vids, end_vids, i)
        invariant ArePartitions(g, n, idx_map, subgraphs, local_begin, local_end, i)
        invariant fresh(vertex_masks) && vertex_masks.Length == nv && forall w :: 0 <= w < nv ==> vertex_masks[w] == 0
      {
        ChunkIs(nv, n, i, subgraph_size);
        var begin := Times(subgraph_size, i);
        var end := begin + subgraph_size;
        if end > nv {
          end := nv;
        }
        var ids, sub, lb, le := MakePart(g, begin, end, vertex_masks, local_begin[i], local_end[i], blockSize);
        OneMoreChunk(nv, n, begin_vids, end_vids, i);
        OneMorePartition(g, n, idx_map, subgraphs, local_begin, local_end, i, ids, sub, lb, le);
        begin_vids, end_vids := begin_vids[i := begin], end_vids[i := end];
        idx_map, subgraphs := idx_map[i := ids], subgraphs[i := sub];
        local_begin, local_end := local_begin[i := lb], local_end[i := le];
      }
      size := subgraph_size;
      ChunksAreEven(nv, n, begin_vids, end_vids);
      PartOfChunk(g, n, idx_map, subgraphs, local_begin, local_end, begin_vids, end_vids);
    }
  }

  /** No object that the program builds is ready for writing its blocks. */
  lemma NeverReady(p: PartitionedGraph, cluster_ids: seq<nat>)
    requires p.AsBuilt()
    ensures !p.Ready(cluster_ids)
  {
  }

  /** With the constructor's graph where the member should be: writing the blocks and fetching some clusters back gives
      the subgraph induced on them. */
  method WriteThenFetch(graph: Csr, nc: nat, cluster_ids: seq<nat>, clusters: seq<nat>, blockSize: nat)
    returns (subg: Csr)
    requires graph.Simple() && Clustered(cluster_ids, nc, graph.V()) && blockSize > 0
    requires NoDuplicates(clusters) && forall a :: 0 <= a < |clusters| ==> clusters[a] < nc
    ensures graph.WellFormed() && graph.V() == |cluster_ids| && IsInduced(graph, ChosenIds(cluster_ids, clusters), subg)
  {
    hide *;
    var p := new PartitionedGraph.WithClusters(graph, nc, cluster_ids);
    var files := WriteBlocks(graph, cluster_ids, nc, p.verts_of_clusters, p.vertex_rank_in_cluster, blockSize);
    subg := p.FetchPartitions(graph, files, clusters, cluster_ids, blockSize);
  }
}
