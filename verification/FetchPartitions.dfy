/** Reading the blocks of some clusters back into one graph
    (sansa/src/common/graph_partition.cc:314-421). */
module FetchPartitions {
  import opened Counting
  import opened Arithmetic
  import opened CsrGraph
  import opened Scan
  import opened EdgeFilter
  import opened Induced
  import opened Clusters
  import opened Partition2D
  import opened FetchedGraph

  // ---------- Degrees ----------

  lemma {:induction false} SumUpdate(s: seq<nat>, k: nat, x: nat, n: nat)
    requires k < |s| && n <= |s|
    ensures SumRange(s[k := s[k] + x], 0, n) == SumRange(s, 0, n) + if k < n then x else 0
    decreases n
  {
    if n > 0 {
      SumUpdate(s, k, x, n - 1);
    }
  }

  lemma {:induction false} SumOfZeros(n: nat, m: nat)
    requires m <= n
    ensures SumRange(seq(n, i => 0), 0, m) == 0
    decreases m
  {
    if m > 0 {
      SumOfZeros(n, m - 1);
    }
  }

  /** Adds the row lengths of one block to its vertices. */
  method AddDegrees(degrees: seq<nat>, vid_offset: nat, num_v: nat, rowptr: seq<nat>, ghost rows: seq<seq<nat>>)
    returns (degrees': seq<nat>)
    requires rowptr == RowStarts(rows) && |rows| == num_v && vid_offset + num_v <= |degrees|
    ensures |degrees'| == |degrees|
    ensures forall s :: 0 <= s < |degrees| ==>
              degrees'[s] == degrees[s] + if vid_offset <= s < vid_offset + num_v then |rows[s - vid_offset]| else 0
    ensures SumRange(degrees', 0, |degrees|) == SumRange(degrees, 0, |degrees|) + Start(rows, num_v)
  {
    hide SumRange;
    degrees' := degrees;
    for i := 0 to num_v
      invariant |degrees'| == |degrees|
      invariant forall s :: 0 <= s < |degrees| ==>
                  degrees'[s] == degrees[s] + if vid_offset <= s < vid_offset + i then |rows[s - vid_offset]| else 0
      invariant SumRange(degrees', 0, |degrees|) == SumRange(degrees, 0, |degrees|) + Start(rows, i)
    {
      assert rowptr[i + 1] == Start(rows, i + 1) == Start(rows, i) + |rows[i]|;
      SumUpdate(degrees', vid_offset + i, rowptr[i + 1] - rowptr[i], |degrees|);
      degrees' := degrees'[vid_offset + i := degrees'[vid_offset + i] + (rowptr[i + 1] - rowptr[i])];
    }
  }

  /** How many blocks of local vertex s have been counted when cluster a is being read, b of its blocks done. */
  ghost function Done(lists: seq<seq<nat>>, a: nat, b: nat, s: nat): nat {
    if s < Start(lists, a) then |lists| else if a < |lists| && s < Start(lists, a + 1) then b else 0
  }

  ghost function Blocks(g: Csr, cluster_ids: seq<nat>, clusters: seq<nat>, s: nat, b: nat): seq<nat>
    requires g.WellFormed() && g.V() == |cluster_ids| && s < |ChosenIds(cluster_ids, clusters)|
  {
    var v := ChosenIds(cluster_ids, clusters)[s];
    if v < g.V() then Joined(SubBlocks(g, cluster_ids, clusters, v), b) else []
  }

  /** The degrees so far. */
  ghost predicate Added(g: Csr, cluster_ids: seq<nat>, clusters: seq<nat>, a: nat, b: nat, degrees: seq<nat>)
    requires g.WellFormed() && g.V() == |cluster_ids|
  {
    && |degrees| == |ChosenIds(cluster_ids, clusters)|
    && forall s :: 0 <= s < |degrees| ==>
         degrees[s] == |Blocks(g, cluster_ids, clusters, s, Done(ChosenLists(cluster_ids, clusters), a, b, s))|
  }

  lemma AddedStart(g: Csr, cluster_ids: seq<nat>, clusters: seq<nat>, degrees: seq<nat>)
    requires g.WellFormed() && g.V() == |cluster_ids| && degrees == seq(|ChosenIds(cluster_ids, clusters)|, s => 0)
    ensures Added(g, cluster_ids, clusters, 0, 0, degrees) && SumRange(degrees, 0, |degrees|) == 0
  {
    SumOfZeros(|degrees|, |degrees|);
  }

  lemma AddedWrap(g: Csr, cluster_ids: seq<nat>, clusters: seq<nat>, a: nat, degrees: seq<nat>)
    requires g.WellFormed() && g.V() == |cluster_ids| && a < |clusters|
             && Added(g, cluster_ids, clusters, a, |clusters|, degrees)
    ensures Added(g, cluster_ids, clusters, a + 1, 0, degrees)
    ensures Start(ChosenLists(cluster_ids, clusters), a + 1)
            == Start(ChosenLists(cluster_ids, clusters), a) + |Members(cluster_ids, clusters[a], |cluster_ids|)|
  {
    hide Blocks, ChosenIds, Members;
    forall s | 0 <= s < |degrees|
      ensures Done(ChosenLists(cluster_ids, clusters), a + 1, 0, s)
              == Done(ChosenLists(cluster_ids, clusters), a, |clusters|, s)
    {
    }
  }

  lemma StartStep(lists: seq<seq<nat>>, a: nat)
    requires a < |lists|
    ensures Start(lists, a + 1) == Start(lists, a) + |lists[a]|
  {
  }

  /** One block more of one vertex. */
  lemma OneBlock(g: Csr, cluster_ids: seq<nat>, clusters: seq<nat>, a: nat, b: nat, s: nat)
    requires g.Simple() && g.V() == |cluster_ids| && a < |clusters| && b < |clusters|
    requires Start(ChosenLists(cluster_ids, clusters), a) <= s < Start(ChosenLists(cluster_ids, clusters), a + 1)
    ensures s < |ChosenIds(cluster_ids, clusters)|
    ensures var rows, r := BlockRows(g, cluster_ids, clusters[a], clusters[b], g.V()),
                           s - Start(ChosenLists(cluster_ids, clusters), a);
            r < |rows| && |Blocks(g, cluster_ids, clusters, s, b + 1)|
                == |Blocks(g, cluster_ids, clusters, s, b)| + |rows[r]|
  {
    hide Members, Start, BlockRows, Joined, RowBlock, ChosenIds;
    var lists := ChosenLists(cluster_ids, clusters);
    StartStep(lists, a);
    var r := s - Start(lists, a);
    PlaceInIds(cluster_ids, clusters, a, r);
    BlockRowsAre(g, cluster_ids, clusters[a], clusters[b], g.V());
    var v := Members(cluster_ids, clusters[a], |cluster_ids|)[r];
    JoinedBlock(g, cluster_ids, clusters, v, b);
  }

  lemma AddedNext(g: Csr, cluster_ids: seq<nat>, clusters: seq<nat>, a: nat, b: nat, degrees: seq<nat>,
                  degrees': seq<nat>)
    requires g.Simple() && g.V() == |cluster_ids| && a < |clusters| && b < |clusters|
    requires Added(g, cluster_ids, clusters, a, b, degrees) && |degrees'| == |degrees|
    requires var rows, begin := BlockRows(g, cluster_ids, clusters[a], clusters[b], g.V()),
                                Start(ChosenLists(cluster_ids, clusters), a);
             forall s :: 0 <= s < |degrees| ==>
               degrees'[s] == degrees[s] + if begin <= s < begin + |rows| then |rows[s - begin]| else 0
    ensures Added(g, cluster_ids, clusters, a, b + 1, degrees')
  {
    hide Members, Start, BlockRows, ChosenIds, Blocks;
    var lists, rows := ChosenLists(cluster_ids, clusters), BlockRows(g, cluster_ids, clusters[a], clusters[b], g.V());
    StartStep(lists, a);
    BlockRowsAre(g, cluster_ids, clusters[a], clusters[b], g.V());
    forall s | 0 <= s < |degrees|
      ensures degrees'[s] == |Blocks(g, cluster_ids, clusters, s, Done(lists, a, b + 1, s))|
    {
      if Start(lists, a) <= s < Start(lists, a + 1) {
        OneBlock(g, cluster_ids, clusters, a, b, s);
      }
    }
  }

  // ---------- Reading blocks ----------

  ghost predicate HasBlock(g: Csr, cluster_ids: seq<nat>, i: nat, j: nat, at: nat, ptrs: seq<seq<nat>>,
                           cols: seq<seq<nat>>)
    requires g.WellFormed() && g.V() == |cluster_ids|
  {
    at < |ptrs| && at < |cols| && IsBlock(g, cluster_ids, i, j, ptrs[at], cols[at])
  }

  /** The blocks of the first a source clusters, and b of the next. */
  ghost predicate Read(g: Csr, cluster_ids: seq<nat>, clusters: seq<nat>, a: nat, b: nat, ptrs: seq<seq<nat>>,
                       cols: seq<seq<nat>>)
    requires g.WellFormed() && g.V() == |cluster_ids|
  {
    var k := |clusters|;
    && |ptrs| == |cols| == Index(k, a, b)
    && forall x, y :: 0 <= x < k && 0 <= y < k && (x < a || (x == a && y < b)) ==>
         HasBlock(g, cluster_ids, clusters[x], clusters[y], Index(k, x, y), ptrs, cols)
  }

  lemma ReadStart(g: Csr, cluster_ids: seq<nat>, clusters: seq<nat>)
    requires g.WellFormed() && g.V() == |cluster_ids|
    ensures Read(g, cluster_ids, clusters, 0, 0, [], [])
  {
  }

  lemma ReadNext(g: Csr, cluster_ids: seq<nat>, clusters: seq<nat>, a: nat, b: nat, ptrs: seq<seq<nat>>,
                 cols: seq<seq<nat>>, rowptr: seq<nat>, colidx: seq<nat>)
    requires g.WellFormed() && g.V() == |cluster_ids| && a < |clusters| && b < |clusters|
    requires Read(g, cluster_ids, clusters, a, b, ptrs, cols)
             && IsBlock(g, cluster_ids, clusters[a], clusters[b], rowptr, colidx)
    ensures Read(g, cluster_ids, clusters, a, b + 1, ptrs + [rowptr], cols + [colidx])
  {
    hide IsBlock;
    var k := |clusters|;
    forall x, y | 0 <= x < k && 0 <= y < k && (x < a || (x == a && y < b + 1))
      ensures HasBlock(g, cluster_ids, clusters[x], clusters[y], Index(k, x, y), ptrs + [rowptr], cols + [colidx])
    {
      if x < a || y < b {
        assert HasBlock(g, cluster_ids, clusters[x], clusters[y], Index(k, x, y), ptrs, cols);
      }
    }
  }

  lemma ReadWrap(g: Csr, cluster_ids: seq<nat>, clusters: seq<nat>, a: nat, ptrs: seq<seq<nat>>, cols: seq<seq<nat>>)
    requires g.WellFormed() && g.V() == |cluster_ids| && a < |clusters|
             && Read(g, cluster_ids, clusters, a, |clusters|, ptrs, cols)
    ensures Read(g, cluster_ids, clusters, a + 1, 0, ptrs, cols)
  {
    hide HasBlock;
    assert (a + 1) * |clusters| == a * |clusters| + |clusters|;
  }

  lemma FlatLength(rows: seq<seq<nat>>)
    ensures |Flat(rows)| == Start(rows, |rows|)
  {
    JoinedLength(rows, |rows|);
  }

  /** One block of the files. */
  method ReadBlock(ghost g: Csr, ghost cluster_ids: seq<nat>, nc: nat, files: PartitionFiles, i: nat, j: nat,
                   ghost rowptrs: seq<seq<nat>>, ghost colidxs: seq<seq<nat>>)
    returns (rowptr: seq<nat>, colidx: seq<nat>, edges: nat)
    requires g.WellFormed() && g.V() == |cluster_ids| && AreBlocks(g, cluster_ids, nc, rowptrs, colidxs)
             && Holds(files, rowptrs, colidxs)
    requires i < nc && j < nc
    ensures IsBlock(g, cluster_ids, i, j, rowptr, colidx)
    ensures edges == |Flat(BlockRows(g, cluster_ids, i, j, g.V()))|
  {
    hide BlockRows, Pid, Flat, Start;
    var pid := Pid(nc, i, j);
    assert IsBlock(g, cluster_ids, i, j, rowptrs[pid], colidxs[pid]);
    assert IsSlice(files.vertices, files.voffsets, pid, rowptrs[pid]);
    assert IsSlice(files.edges, files.eoffsets, pid, colidxs[pid]);
    var start, end := files.voffsets[pid], files.voffsets[pid + 1];
    rowptr := files.vertices[start..end];
    edges := files.vertices[end - 1];
    colidx := files.edges[files.eoffsets[pid]..files.eoffsets[pid + 1]];
    ghost var rows := BlockRows(g, cluster_ids, i, j, g.V());
    assert edges == rowptr[|rowptr| - 1] == Start(rows, |rows|);
    FlatLength(rows);
  }

  lemma BlockPointers(g: Csr, cluster_ids: seq<nat>, i: nat, j: nat, rowptr: seq<nat>, colidx: seq<nat>)
    requires g.WellFormed() && g.V() == |cluster_ids| && IsBlock(g, cluster_ids, i, j, rowptr, colidx)
    ensures rowptr == RowStarts(BlockRows(g, cluster_ids, i, j, g.V()))
    ensures |BlockRows(g, cluster_ids, i, j, g.V())| == |Members(cluster_ids, i, |cluster_ids|)|
  {
    BlockRowsAre(g, cluster_ids, i, j, g.V());
  }

  lemma RangeOfList(cluster_ids: seq<nat>, clusters: seq<nat>, a: nat)
    requires a < |clusters|
    ensures Start(ChosenLists(cluster_ids, clusters), a) + |Members(cluster_ids, clusters[a], |cluster_ids|)|
            <= |ChosenIds(cluster_ids, clusters)|
    ensures Start(ChosenLists(cluster_ids, clusters), 0) == 0
  {
    hide Members;
    var lists := ChosenLists(cluster_ids, clusters);
    StartStep(lists, a);
    StartsOrdered(lists, a + 1, |lists|);
    FlatLength(lists);
  }

  lemma MembersListed(cluster_ids: seq<nat>, nc: nat, verts_of_clusters: seq<seq<nat>>, ranks: seq<nat>, c: nat)
    requires Lists(cluster_ids, nc, verts_of_clusters, ranks) && c < nc
    ensures |verts_of_clusters| == nc && verts_of_clusters[c] == Members(cluster_ids, c, |cluster_ids|)
  {
  }

  /** Reads all blocks between the clusters, and adds up the degrees. */
  method ReadBlocks(ghost g: Csr, ghost cluster_ids: seq<nat>, nc: nat, verts_of_clusters: seq<seq<nat>>,
                    ghost ranks: seq<nat>, files: PartitionFiles, clusters: seq<nat>, nv_subg: nat,
                    ghost rowptrs: seq<seq<nat>>, ghost colidxs: seq<seq<nat>>)
    returns (ptrs: seq<seq<nat>>, cols: seq<seq<nat>>, degrees: seq<nat>, ne_subg: nat)
    requires g.Simple() && g.V() == |cluster_ids| && Lists(cluster_ids, nc, verts_of_clusters, ranks)
    requires AreBlocks(g, cluster_ids, nc, rowptrs, colidxs) && Holds(files, rowptrs, colidxs)
    requires (forall a :: 0 <= a < |clusters| ==> clusters[a] < nc) && nv_subg == |ChosenIds(cluster_ids, clusters)|
    ensures g.WellFormed() && Read(g, cluster_ids, clusters, |clusters|, 0, ptrs, cols)
    ensures Added(g, cluster_ids, clusters, |clusters|, 0, degrees) && |degrees| == nv_subg
            && ne_subg == SumRange(degrees, 0, nv_subg)
  {
    hide *;
    SimpleIsWellFormed(g);
    ptrs, cols, ne_subg := [], [], 0;
    degrees := seq(nv_subg, s => 0);
    AddedStart(g, cluster_ids, clusters, degrees);
    ReadStart(g, cluster_ids, clusters);
    var vid_offset := 0;
    ghost var lists := ChosenLists(cluster_ids, clusters);
    if |clusters| > 0 {
      RangeOfList(cluster_ids, clusters, 0);
    }
    for a := 0 to |clusters|
      invariant Read(g, cluster_ids, clusters, a, 0, ptrs, cols) && Added(g, cluster_ids, clusters, a, 0, degrees)
      invariant |degrees| == nv_subg && ne_subg == SumRange(degrees, 0, nv_subg)
      invariant |clusters| > 0 ==> vid_offset == Start(lists, a)
    {
      MembersListed(cluster_ids, nc, verts_of_clusters, ranks, clusters[a]);
      RangeOfList(cluster_ids, clusters, a);
      var num_v := |verts_of_clusters[clusters[a]]|;
      for b := 0 to |clusters|
        invariant Read(g, cluster_ids, clusters, a, b, ptrs, cols) && Added(g, cluster_ids, clusters, a, b, degrees)
        invariant |degrees| == nv_subg && ne_subg == SumRange(degrees, 0, nv_subg)
      {
        var rowptr, colidx, edges := ReadBlock(g, cluster_ids, nc, files, clusters[a], clusters[b], rowptrs, colidxs);
        ghost var rows := BlockRows(g, cluster_ids, clusters[a], clusters[b], g.V());
        BlockPointers(g, cluster_ids, clusters[a], clusters[b], rowptr, colidx);
        FlatLength(rows);
        ReadNext(g, cluster_ids, clusters, a, b, ptrs, cols, rowptr, colidx);
        ptrs, cols := ptrs + [rowptr], cols + [colidx];
        ne_subg := ne_subg + edges;
        ghost var before := degrees;
        degrees := AddDegrees(degrees, vid_offset, num_v, rowptr, rows);
        AddedNext(g, cluster_ids, clusters, a, b, before, degrees);
      }
      ReadWrap(g, cluster_ids, clusters, a, ptrs, cols);
      AddedWrap(g, cluster_ids, clusters, a, degrees);
      vid_offset := vid_offset + num_v;
    }
  }

  // ---------- Numbering ----------

  /** The chosen vertices, in order. */
  method GatherVertices(ghost cluster_ids: seq<nat>, nc: nat, verts_of_clusters: seq<seq<nat>>, ghost ranks: seq<nat>,
                        clusters: seq<nat>)
    returns (vertices_subg: seq<nat>)
    requires Lists(cluster_ids, nc, verts_of_clusters, ranks) && forall a :: 0 <= a < |clusters| ==> clusters[a] < nc
    ensures vertices_subg == ChosenIds(cluster_ids, clusters)
  {
    hide Members;
    ghost var lists := ChosenLists(cluster_ids, clusters);
    vertices_subg := [];
    for a := 0 to |clusters|
      invariant vertices_subg == Joined(lists, a)
    {
      vertices_subg := vertices_subg + verts_of_clusters[clusters[a]];
    }
  }

  method BuildIdMap(vertices_subg: seq<nat>) returns (m: map<nat, nat>)
    requires NoDuplicates(vertices_subg)
    ensures IsIdMap(vertices_subg, m)
  {
    m := map[];
    for i := 0 to |vertices_subg|
      invariant forall k :: 0 <= k < i ==> vertices_subg[k] in m && m[vertices_subg[k]] == k
      invariant forall u :: u in m ==> u in vertices_subg[..i]
    {
      if vertices_subg[i] !in m {
        m := m[vertices_subg[i] := i];
      }
    }
  }

  // ---------- Filling ----------

  /** The part of a block that belongs to v. */
  lemma SliceOfBlock(g: Csr, cluster_ids: seq<nat>, i: nat, j: nat, rowptr: seq<nat>, colidx: seq<nat>, v: nat)
    requires g.WellFormed() && g.V() == |cluster_ids| && v < g.V() && cluster_ids[v] == i
             && IsBlock(g, cluster_ids, i, j, rowptr, colidx)
    ensures var r := Rank(cluster_ids, v);
            && r + 1 < |rowptr| && rowptr[r] <= rowptr[r + 1] <= |colidx|
            && colidx[rowptr[r]..rowptr[r + 1]] == RowBlock(g, cluster_ids, v, j)
  {
    hide Members, BlockRows, Rank, RowBlock, Joined, Start;
    var rows, r := BlockRows(g, cluster_ids, i, j, g.V()), Rank(cluster_ids, v);
    RankIsPosition(cluster_ids, v, g.V());
    BlockRowsAre(g, cluster_ids, i, j, g.V());
    FlatRow(rows, |rows|, r);
  }

  /** Copies one slice, renumbered. */
  method CopySlice(slice: seq<nat>, m: map<nat, nat>, edges: array<nat>, idx: nat)
    requires idx + |slice| <= edges.Length
    modifies edges
    ensures edges[idx..idx + |slice|] == Localised(m, slice)
    ensures forall i :: 0 <= i < edges.Length && !(idx <= i < idx + |slice|) ==> edges[i] == old(edges[i])
  {
    for i := 0 to |slice|
      invariant forall k :: 0 <= k < i ==> edges[idx + k] == LocalOf(m, slice[k])
      invariant forall k :: 0 <= k < edges.Length && !(idx <= k < idx + i) ==> edges[k] == old(edges[k])
    {
      edges[idx + i] := LocalOf(m, slice[i]);
    }
  }

  lemma BlockOf(g: Csr, cluster_ids: seq<nat>, clusters: seq<nat>, ptrs: seq<seq<nat>>, cols: seq<seq<nat>>, a: nat,
                b: nat)
    requires g.WellFormed() && g.V() == |cluster_ids| && a < |clusters| && b < |clusters|
    requires Read(g, cluster_ids, clusters, |clusters|, 0, ptrs, cols)
    ensures Index(|clusters|, a, b) < |ptrs| && Index(|clusters|, a, b) < |cols|
    ensures IsBlock(g, cluster_ids, clusters[a], clusters[b], ptrs[Index(|clusters|, a, b)],
                    cols[Index(|clusters|, a, b)])
  {
    hide IsBlock, Index;
    assert HasBlock(g, cluster_ids, clusters[a], clusters[b], Index(|clusters|, a, b), ptrs, cols);
  }

  lemma {:induction false} JoinedGrows(blocks: seq<seq<nat>>, b: nat, c: nat)
    requires b <= c <= |blocks|
    ensures |Joined(blocks, b)| <= |Joined(blocks, c)|
    decreases c
  {
    if b < c {
      JoinedGrows(blocks, b, c - 1);
    }
  }

  /** The row of one vertex: its part of each block in turn. */
  method FillSubRow(ghost g: Csr, ghost cluster_ids: seq<nat>, clusters: seq<nat>, ptrs: seq<seq<nat>>,
                    cols: seq<seq<nat>>, a: nat, ghost v: nat, rank: nat, m: map<nat, nat>, edges: array<nat>,
                    begin: nat)
    requires g.WellFormed() && g.V() == |cluster_ids| && v < g.V() && a < |clusters| && cluster_ids[v] == clusters[a]
    requires rank == Rank(cluster_ids, v) && Read(g, cluster_ids, clusters, |clusters|, 0, ptrs, cols)
    requires begin + |SubRow(g, cluster_ids, clusters, m, v)| <= edges.Length
    modifies edges
    ensures edges[begin..begin + |SubRow(g, cluster_ids, clusters, m, v)|] == SubRow(g, cluster_ids, clusters, m, v)
    ensures forall i :: 0 <= i < edges.Length && !(begin <= i < begin + |SubRow(g, cluster_ids, clusters, m, v)|) ==>
              edges[i] == old(edges[i])
  {
    hide *;
    ghost var blocks := SubBlocks(g, cluster_ids, clusters, v);
    SubRowUnfolds(g, cluster_ids, clusters, m, v);
    NothingJoined(blocks, m);
    var idx := begin;
    for b := 0 to |clusters|
      invariant idx == begin + |Joined(blocks, b)| <= edges.Length
      invariant edges[begin..idx] == Localised(m, Joined(blocks, b))
      invariant forall i :: 0 <= i < edges.Length && !(begin <= i < idx) ==> edges[i] == old(edges[i])
    {
      BlockOf(g, cluster_ids, clusters, ptrs, cols, a, b);
      var pid := Index(|clusters|, a, b);
      SliceOfBlock(g, cluster_ids, clusters[a], clusters[b], ptrs[pid], cols[pid], v);
      JoinedBlock(g, cluster_ids, clusters, v, b);
      JoinedGrows(blocks, b + 1, |clusters|);
      var block := cols[pid][ptrs[pid][rank]..ptrs[pid][rank + 1]];
      LocalisedConcat(m, Joined(blocks, b), block);
      ghost var before := edges[begin..idx];
      CopySlice(block, m, edges, idx);
      assert edges[begin..idx + |block|] == before + edges[idx..idx + |block|];
      idx := idx + |block|;
    }
  }

  lemma IdsLength(cluster_ids: seq<nat>, clusters: seq<nat>)
    ensures |ChosenIds(cluster_ids, clusters)| == Start(ChosenLists(cluster_ids, clusters), |clusters|)
  {
    FlatLength(ChosenLists(cluster_ids, clusters));
  }

  lemma DegreesAreRows(g: Csr, cluster_ids: seq<nat>, clusters: seq<nat>, m: map<nat, nat>, degrees: seq<nat>,
                       offsets: seq<nat>)
    requires g.Simple() && g.V() == |cluster_ids| && Added(g, cluster_ids, clusters, |clusters|, 0, degrees)
             && IsPrefixSum(degrees, offsets)
    ensures Offsets(SubRows(g, cluster_ids, clusters, m), offsets)
            && |offsets| == |ChosenIds(cluster_ids, clusters)| + 1
    ensures offsets[|ChosenIds(cluster_ids, clusters)|] == SumRange(degrees, 0, |degrees|)
  {
    hide ChosenIds, Joined, SubBlocks, SubRow;
    var rows, lists := SubRows(g, cluster_ids, clusters, m), ChosenLists(cluster_ids, clusters);
    FlatLength(lists);
    IdsLength(cluster_ids, clusters);
    forall s | 0 <= s < |rows| ensures offsets[s] + |rows[s]| == offsets[s + 1] {
      SubRowsAt(g, cluster_ids, clusters, m, s);
      SubRowUnfolds(g, cluster_ids, clusters, m, ChosenIds(cluster_ids, clusters)[s]);
      assert SumRange(degrees, 0, s + 1) == SumRange(degrees, 0, s) + degrees[s];
    }
  }

  lemma RowPlace(g: Csr, cluster_ids: seq<nat>, clusters: seq<nat>, m: map<nat, nat>, offsets: seq<nat>, a: nat, r: nat,
                 ranks: seq<nat>, nc: nat, verts_of_clusters: seq<seq<nat>>)
    requires g.WellFormed() && g.V() == |cluster_ids| && Offsets(SubRows(g, cluster_ids, clusters, m), offsets)
    requires a < |clusters| && clusters[a] < nc && Lists(cluster_ids, nc, verts_of_clusters, ranks)
    requires r < |Members(cluster_ids, clusters[a], |cluster_ids|)|
    ensures var v, src := Members(cluster_ids, clusters[a], |cluster_ids|)[r],
                          Start(ChosenLists(cluster_ids, clusters), a) + r;
            && v < g.V() && cluster_ids[v] == clusters[a] && v < |ranks| && ranks[v] == Rank(cluster_ids, v)
            && src < |ChosenIds(cluster_ids, clusters)| && |offsets| == |ChosenIds(cluster_ids, clusters)| + 1
            && SubRows(g, cluster_ids, clusters, m)[src] == SubRow(g, cluster_ids, clusters, m, v)
            && offsets[src] + |SubRow(g, cluster_ids, clusters, m, v)| <= offsets[|ChosenIds(cluster_ids, clusters)|]
  {
    hide Members, ChosenIds, SubRow, Start, Rank;
    PositionIsRank(cluster_ids, clusters[a], |cluster_ids|, r);
    PlaceInIds(cluster_ids, clusters, a, r);
    var src := Start(ChosenLists(cluster_ids, clusters), a) + r;
    SubRowsAt(g, cluster_ids, clusters, m, src);
    var rows := SubRows(g, cluster_ids, clusters, m);
    OffsetsOrdered(rows, offsets, src + 1, |rows|);
    assert offsets[src] + |rows[src]| == offsets[src + 1];
  }

  lemma NoStart(lists: seq<seq<nat>>)
    ensures Start(lists, 0) == 0
  {
  }

  lemma ListOf(cluster_ids: seq<nat>, clusters: seq<nat>, a: nat)
    requires a < |clusters|
    ensures ChosenLists(cluster_ids, clusters)[a] == Members(cluster_ids, clusters[a], |cluster_ids|)
  {
  }

  method FillSubgraph(ghost g: Csr, ghost cluster_ids: seq<nat>, nc: nat, verts_of_clusters: seq<seq<nat>>,
                      ranks: seq<nat>, clusters: seq<nat>, ptrs: seq<seq<nat>>, cols: seq<seq<nat>>, m: map<nat, nat>,
                      offsets: seq<nat>, ne: nat)
    returns (edges: array<nat>)
    requires g.Simple() && g.V() == |cluster_ids| && Lists(cluster_ids, nc, verts_of_clusters, ranks)
    requires forall a :: 0 <= a < |clusters| ==> clusters[a] < nc
    requires Read(g, cluster_ids, clusters, |clusters|, 0, ptrs, cols)
    requires Offsets(SubRows(g, cluster_ids, clusters, m), offsets)
             && |offsets| == |ChosenIds(cluster_ids, clusters)| + 1
    requires ne == offsets[|ChosenIds(cluster_ids, clusters)|]
    ensures edges.Length == ne
    ensures ListsFilled(SubRows(g, cluster_ids, clusters, m), offsets, edges[..], |ChosenIds(cluster_ids, clusters)|)
  {
    hide *;
    SimpleIsWellFormed(g);
    ghost var rows, lists := SubRows(g, cluster_ids, clusters, m), ChosenLists(cluster_ids, clusters);
    edges := new nat[ne];
    NoLists(rows, offsets, edges[..]);
    var src := 0;
    NoStart(lists);
    for a := 0 to |clusters|
      invariant src == Start(lists, a) && ListsFilled(rows, offsets, edges[..], src)
    {
      MembersListed(cluster_ids, nc, verts_of_clusters, ranks, clusters[a]);
      var verts := verts_of_clusters[clusters[a]];
      ghost var first := src;
      for r := 0 to |verts|
        invariant src == first + r && ListsFilled(rows, offsets, edges[..], src)
      {
        RowPlace(g, cluster_ids, clusters, m, offsets, a, r, ranks, nc, verts_of_clusters);
        var v := verts[r];
        ghost var before := edges[..];
        FillSubRow(g, cluster_ids, clusters, ptrs, cols, a, v, ranks[v], m, edges, offsets[src]);
        assert edges[..][offsets[src]..offsets[src] + |rows[src]|] == edges[offsets[src]..offsets[src] + |rows[src]|];
        PutList(rows[src], offsets[src], edges[..]);
        OneMoreList(rows, offsets, before, edges[..], src);
        src := src + 1;
      }
      StartStep(lists, a);
      ListOf(cluster_ids, clusters, a);
    }
    IdsLength(cluster_ids, clusters);
  }

  /** Reads, numbers, scans, fills. */
  method FetchSubgraph(ghost g: Csr, ghost cluster_ids: seq<nat>, nc: nat, verts_of_clusters: seq<seq<nat>>,
                       ranks: seq<nat>, files: PartitionFiles, clusters: seq<nat>, blockSize: nat,
                       ghost rowptrs: seq<seq<nat>>, ghost colidxs: seq<seq<nat>>)
    returns (subg: Csr)
    requires g.Simple() && g.V() == |cluster_ids| && Lists(cluster_ids, nc, verts_of_clusters, ranks) && blockSize > 0
    requires AreBlocks(g, cluster_ids, nc, rowptrs, colidxs) && Holds(files, rowptrs, colidxs)
    requires NoDuplicates(clusters) && forall a :: 0 <= a < |clusters| ==> clusters[a] < nc
    ensures g.WellFormed() && IsInduced(g, ChosenIds(cluster_ids, clusters), subg)
  {
    hide *;
    SimpleIsWellFormed(g);
    var vertices_subg := GatherVertices(cluster_ids, nc, verts_of_clusters, ranks, clusters);
    ChosenOnce(cluster_ids, clusters);
    var ptrs, cols, degrees, ne_subg := ReadBlocks(g, cluster_ids, nc, verts_of_clusters, ranks, files, clusters,
                                                   |vertices_subg|, rowptrs, colidxs);
    var m := BuildIdMap(vertices_subg);
    var offsets := ParallelPrefixSum(degrees, blockSize);
    DegreesAreRows(g, cluster_ids, clusters, m, degrees, offsets);
    var edges := FillSubgraph(g, cluster_ids, nc, verts_of_clusters, ranks, clusters, ptrs, cols, m, offsets, ne_subg);
    subg := Csr(offsets, edges[..]);
    SubRowsAreInduced(g, cluster_ids, clusters, m, subg);
  }
}
