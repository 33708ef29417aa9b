/** Splitting the edges by source and destination cluster, and writing the blocks out
    (sansa/src/common/graph_partition.cc:230-312). */
module Partition2D {
  import opened Counting
  import opened CsrGraph
  import opened Scan
  import opened EdgeFilter
  import opened Clusters

  // ---------- Counting ----------

  ghost predicate CellCounted(cluster_ids: seq<nat>, pid: nat, mine: bool, j: nat, r: nat, row: seq<nat>,
                              degrees: seq<seq<nat>>, nes: seq<nat>, degrees': seq<seq<nat>>, nes': seq<nat>)
  {
    && pid < |degrees| && pid < |nes| && pid < |degrees'| && pid < |nes'|
    && if mine then
         && r < |degrees[pid]|
         && degrees'[pid] == degrees[pid][r := degrees[pid][r] + |Filter(row, InCluster(cluster_ids, j))|]
         && nes'[pid] == nes[pid] + |Filter(row, InCluster(cluster_ids, j))|
       else degrees'[pid] == degrees[pid] && nes'[pid] == nes[pid]
  }

  /** What one vertex of cluster s, at rank r, adds to degrees and edge counts: `row` so far. */
  ghost predicate RowCounted(cluster_ids: seq<nat>, nc: nat, s: nat, r: nat, row: seq<nat>,
                             degrees: seq<seq<nat>>, nes: seq<nat>, degrees': seq<seq<nat>>, nes': seq<nat>)
  {
    && |degrees'| == |nes'| == |degrees| == |nes| == nc * nc
    && forall i, j :: 0 <= i < nc && 0 <= j < nc ==>
         CellCounted(cluster_ids, Pid(nc, i, j), i == s, j, r, row, degrees, nes, degrees', nes')
  }

  lemma NothingCounted(cluster_ids: seq<nat>, nc: nat, s: nat, r: nat, degrees: seq<seq<nat>>, nes: seq<nat>)
    requires |degrees| == |nes| == nc * nc && s < nc
    requires forall j :: 0 <= j < nc ==> Pid(nc, s, j) < |degrees| && r < |degrees[Pid(nc, s, j)]|
    ensures RowCounted(cluster_ids, nc, s, r, [], degrees, nes, degrees, nes)
  {
    hide Pid;
    forall i, j | 0 <= i < nc && 0 <= j < nc
      ensures CellCounted(cluster_ids, Pid(nc, i, j), i == s, j, r, [], degrees, nes, degrees, nes)
    {
      PidBelow(nc, i, j);
    }
  }

  lemma CellNext(cluster_ids: seq<nat>, pid: nat, mine: bool, j: nat, r: nat, row: seq<nat>, u: nat,
                 degrees: seq<seq<nat>>, nes: seq<nat>, degrees': seq<seq<nat>>, nes': seq<nat>, at: nat)
    requires CellCounted(cluster_ids, pid, mine, j, r, row, degrees, nes, degrees', nes')
    requires u < |cluster_ids| && at < |degrees'| && at < |nes'| && r < |degrees'[at]|
    requires pid == at <==> mine && cluster_ids[u] == j
    ensures CellCounted(cluster_ids, pid, mine, j, r, row + [u], degrees, nes,
                        degrees'[at := degrees'[at][r := degrees'[at][r] + 1]], nes'[at := nes'[at] + 1])
  {
    assert (row + [u])[..|row|] == row;
  }

  lemma RowCountedNext(cluster_ids: seq<nat>, nc: nat, s: nat, r: nat, row: seq<nat>, u: nat,
                       degrees: seq<seq<nat>>, nes: seq<nat>, degrees': seq<seq<nat>>, nes': seq<nat>)
    requires RowCounted(cluster_ids, nc, s, r, row, degrees, nes, degrees', nes') && s < nc
    requires u < |cluster_ids| && cluster_ids[u] < nc
    ensures var at := Pid(nc, s, cluster_ids[u]);
            && at < |degrees'| == |nes'| && r < |degrees'[at]|
            && RowCounted(cluster_ids, nc, s, r, row + [u], degrees, nes,
                          degrees'[at := degrees'[at][r := degrees'[at][r] + 1]], nes'[at := nes'[at] + 1])
  {
    hide Pid, Filter, InCluster;
    var at := Pid(nc, s, cluster_ids[u]);
    assert CellCounted(cluster_ids, at, true, cluster_ids[u], r, row, degrees, nes, degrees', nes');
    var degrees'', nes'' := degrees'[at := degrees'[at][r := degrees'[at][r] + 1]], nes'[at := nes'[at] + 1];
    forall i, j | 0 <= i < nc && 0 <= j < nc
      ensures CellCounted(cluster_ids, Pid(nc, i, j), i == s, j, r, row + [u], degrees, nes, degrees'', nes'')
    {
      if Pid(nc, i, j) == at {
        PidDistinct(nc, i, j, s, cluster_ids[u]);
      }
      CellNext(cluster_ids, Pid(nc, i, j), i == s, j, r, row, u, degrees, nes, degrees', nes', at);
    }
  }

  method CountRow(cluster_ids: seq<nat>, nc: nat, s: nat, r: nat, row: seq<nat>, degrees: seq<seq<nat>>, nes: seq<nat>)
    returns (degrees': seq<seq<nat>>, nes': seq<nat>)
    requires |degrees| == |nes| == nc * nc && s < nc
    requires forall j :: 0 <= j < nc ==> Pid(nc, s, j) < |degrees| && r < |degrees[Pid(nc, s, j)]|
    requires forall u :: u in row ==> u < |cluster_ids| && cluster_ids[u] < nc
    ensures RowCounted(cluster_ids, nc, s, r, row, degrees, nes, degrees', nes')
  {
    hide *;
    degrees', nes' := degrees, nes;
    NothingCounted(cluster_ids, nc, s, r, degrees, nes);
    assert row[..0] == [];
    for e := 0 to |row|
      invariant RowCounted(cluster_ids, nc, s, r, row[..e], degrees, nes, degrees', nes')
    {
      var u := row[e];
      assert u in row && row[..e + 1] == row[..e] + [u];
      RowCountedNext(cluster_ids, nc, s, r, row[..e], u, degrees, nes, degrees', nes');
      var pid := Pid(nc, s, cluster_ids[u]);
      nes' := nes'[pid := nes'[pid] + 1];
      degrees' := degrees'[pid := degrees'[pid][r := degrees'[pid][r] + 1]];
    }
    assert row[..|row|] == row;
  }

  ghost predicate BlockCounted(g: Csr, cluster_ids: seq<nat>, i: nat, j: nat, m: nat, pid: nat, degrees: seq<seq<nat>>,
                               nes: seq<nat>)
    requires g.WellFormed() && m <= g.V() == |cluster_ids|
  {
    var rows := BlockRows(g, cluster_ids, i, j, m);
    && pid < |degrees| && pid < |nes|
    && nes[pid] == |Flat(rows)| && |rows| <= |degrees[pid]| == |Members(cluster_ids, i, |cluster_ids|)|
    && forall r :: 0 <= r < |degrees[pid]| ==> degrees[pid][r] == if r < |rows| then |rows[r]| else 0
  }

  /** After the vertices below m: the lengths of their block rows, and zeros. */
  ghost predicate Counted(g: Csr, cluster_ids: seq<nat>, nc: nat, m: nat, degrees: seq<seq<nat>>, nes: seq<nat>)
    requires g.WellFormed() && m <= g.V() == |cluster_ids|
  {
    && |degrees| == |nes| == nc * nc
    && forall i, j :: 0 <= i < nc && 0 <= j < nc ==> BlockCounted(g, cluster_ids, i, j, m, Pid(nc, i, j), degrees, nes)
  }

  lemma BlockCountedNext(g: Csr, cluster_ids: seq<nat>, nc: nat, i: nat, j: nat, v: nat, pid: nat,
                         degrees: seq<seq<nat>>, nes: seq<nat>, degrees': seq<seq<nat>>, nes': seq<nat>)
    requires g.WellFormed() && v < g.V() == |cluster_ids|
    requires BlockCounted(g, cluster_ids, i, j, v, pid, degrees, nes)
    requires CellCounted(cluster_ids, pid, i == cluster_ids[v], j, Rank(cluster_ids, v), g.N(v), degrees, nes, degrees',
                         nes')
    ensures BlockCounted(g, cluster_ids, i, j, v + 1, pid, degrees', nes')
  {
    hide Flat, Members, BlockRows, Filter, InCluster;
    var rows := BlockRows(g, cluster_ids, i, j, v);
    BlockRowsNext(g, cluster_ids, i, j, v);
    BlockRowsAre(g, cluster_ids, i, j, v);
    RankIsPosition(cluster_ids, v, |cluster_ids|);
    if i == cluster_ids[v] {
      FlatNext(rows, RowBlock(g, cluster_ids, v, j));
    } else {
      assert rows + [] == rows;
    }
  }

  lemma CountedNext(g: Csr, cluster_ids: seq<nat>, nc: nat, v: nat,
                    degrees: seq<seq<nat>>, nes: seq<nat>, degrees': seq<seq<nat>>, nes': seq<nat>)
    requires g.WellFormed() && v < g.V() == |cluster_ids| && Counted(g, cluster_ids, nc, v, degrees, nes)
    requires RowCounted(cluster_ids, nc, cluster_ids[v], Rank(cluster_ids, v), g.N(v), degrees, nes, degrees', nes')
    ensures Counted(g, cluster_ids, nc, v + 1, degrees', nes')
  {
    hide Pid, BlockCounted, CellCounted, Rank;
    forall i, j | 0 <= i < nc && 0 <= j < nc
      ensures BlockCounted(g, cluster_ids, i, j, v + 1, Pid(nc, i, j), degrees', nes')
    {
      BlockCountedNext(g, cluster_ids, nc, i, j, v, Pid(nc, i, j), degrees, nes, degrees', nes');
    }
  }

  lemma RowReady(g: Csr, cluster_ids: seq<nat>, nc: nat, v: nat, degrees: seq<seq<nat>>, nes: seq<nat>)
    requires g.Simple() && v < g.V() && Clustered(cluster_ids, nc, g.V())
             && Counted(g, cluster_ids, nc, v, degrees, nes)
    ensures |degrees| == |nes| == nc * nc && cluster_ids[v] < nc
    ensures forall j :: 0 <= j < nc ==>
              Pid(nc, cluster_ids[v], j) < |degrees| && Rank(cluster_ids, v) < |degrees[Pid(nc, cluster_ids[v], j)]|
    ensures v + 1 < |g.vertices| && g.vertices[v] <= g.vertices[v + 1] <= |g.edges|
    ensures forall u :: u in g.N(v) ==> u < |cluster_ids| && cluster_ids[u] < nc
  {
    hide Pid, Members, BlockRows, Flat;
    RankIsPosition(cluster_ids, v, |cluster_ids|);
    forall j | 0 <= j < nc
      ensures Pid(nc, cluster_ids[v], j) < |degrees| && Rank(cluster_ids, v) < |degrees[Pid(nc, cluster_ids[v], j)]|
    {
      assert BlockCounted(g, cluster_ids, cluster_ids[v], j, v, Pid(nc, cluster_ids[v], j), degrees, nes);
    }
  }

  /** Zeros for every partition. */
  method NewDegrees(nc: nat, verts_of_clusters: seq<seq<nat>>) returns (degrees: seq<seq<nat>>)
    requires |verts_of_clusters| == nc
    ensures |degrees| == nc * nc
    ensures forall i, j :: 0 <= i < nc && 0 <= j < nc ==>
              Pid(nc, i, j) < |degrees| && degrees[Pid(nc, i, j)] == seq(|verts_of_clusters[i]|, r => 0)
  {
    hide Pid;
    degrees := seq(nc * nc, p => []);
    for i := 0 to nc
      invariant |degrees| == nc * nc
      invariant forall a, b :: 0 <= a < i && 0 <= b < nc ==>
                  Pid(nc, a, b) < |degrees| && degrees[Pid(nc, a, b)] == seq(|verts_of_clusters[a]|, r => 0)
    {
      for j := 0 to nc
        invariant |degrees| == nc * nc
        invariant forall a, b :: 0 <= a < nc && 0 <= b < nc && (a < i || (a == i && b < j)) ==>
                    Pid(nc, a, b) < |degrees| && degrees[Pid(nc, a, b)] == seq(|verts_of_clusters[a]|, r => 0)
      {
        PidBelow(nc, i, j);
        forall a, b | 0 <= a < nc && 0 <= b < nc && (a < i || (a == i && b < j))
          ensures Pid(nc, a, b) != Pid(nc, i, j)
        {
          if Pid(nc, a, b) == Pid(nc, i, j) {
            PidDistinct(nc, a, b, i, j);
          }
        }
        degrees := degrees[Pid(nc, i, j) := seq(|verts_of_clusters[i]|, r => 0)];
      }
    }
  }

  // ---------- Filling ----------

  ghost predicate CellFilled(cluster_ids: seq<nat>, pid: nat, mine: bool, j: nat, row: seq<nat>,
                             colidx: seq<seq<nat>>, index: seq<nat>, colidx': seq<seq<nat>>, index': seq<nat>)
  {
    && pid < |colidx| && pid < |index| && pid < |colidx'| && pid < |index'|
    && |colidx'[pid]| == |colidx[pid]|
    && if mine then
         && index'[pid] == index[pid] + |Filter(row, InCluster(cluster_ids, j))| <= |colidx[pid]|
         && colidx'[pid][..index'[pid]] == colidx[pid][..index[pid]] + Filter(row, InCluster(cluster_ids, j))
       else colidx'[pid] == colidx[pid] && index'[pid] == index[pid]
  }

  /** What one vertex of cluster s appends to the blocks: `row` so far. */
  ghost predicate RowFilled(cluster_ids: seq<nat>, nc: nat, s: nat, row: seq<nat>,
                            colidx: seq<seq<nat>>, index: seq<nat>, colidx': seq<seq<nat>>, index': seq<nat>)
  {
    && |colidx'| == |index'| == |colidx| == |index| == nc * nc
    && forall i, j :: 0 <= i < nc && 0 <= j < nc ==>
         CellFilled(cluster_ids, Pid(nc, i, j), i == s, j, row, colidx, index, colidx', index')
  }

  ghost predicate CellRoom(cluster_ids: seq<nat>, pid: nat, j: nat, row: seq<nat>, colidx: seq<seq<nat>>,
                           index: seq<nat>) {
    pid < |colidx| && pid < |index| && index[pid] + |Filter(row, InCluster(cluster_ids, j))| <= |colidx[pid]|
  }

  /** There is room for the whole row. */
  ghost predicate Room(cluster_ids: seq<nat>, nc: nat, s: nat, row: seq<nat>, colidx: seq<seq<nat>>, index: seq<nat>) {
    && |colidx| == |index| == nc * nc
    && forall j :: 0 <= j < nc ==> CellRoom(cluster_ids, Pid(nc, s, j), j, row, colidx, index)
  }

  function Put(buffer: seq<nat>, i: nat, u: nat): (r: seq<nat>)
    requires i < |buffer|
  {
    buffer[i := u]
  }

  lemma NothingFilled(cluster_ids: seq<nat>, nc: nat, s: nat, row: seq<nat>, colidx: seq<seq<nat>>, index: seq<nat>)
    requires Room(cluster_ids, nc, s, row, colidx, index) && s < nc
    ensures RowFilled(cluster_ids, nc, s, [], colidx, index, colidx, index)
  {
    hide Pid;
    forall i, j | 0 <= i < nc && 0 <= j < nc
      ensures CellFilled(cluster_ids, Pid(nc, i, j), i == s, j, [], colidx, index, colidx, index)
    {
      PidBelow(nc, i, j);
      if i == s {
        assert CellRoom(cluster_ids, Pid(nc, s, j), j, row, colidx, index);
      }
    }
  }

  lemma CellFillNext(cluster_ids: seq<nat>, pid: nat, mine: bool, j: nat, row: seq<nat>, u: nat,
                     colidx: seq<seq<nat>>, index: seq<nat>, colidx': seq<seq<nat>>, index': seq<nat>, at: nat)
    requires CellFilled(cluster_ids, pid, mine, j, row, colidx, index, colidx', index')
    requires u < |cluster_ids| && at < |colidx'| && at < |index'| && index'[at] < |colidx'[at]|
    requires pid == at <==> mine && cluster_ids[u] == j
    ensures CellFilled(cluster_ids, pid, mine, j, row + [u], colidx, index,
                       colidx'[at := Put(colidx'[at], index'[at], u)], index'[at := index'[at] + 1])
  {
    assert (row + [u])[..|row|] == row;
    var after := Put(colidx'[at], index'[at], u);
    assert after[..index'[at] + 1] == colidx'[at][..index'[at]] + [u];
  }

  lemma InClusterIs(cluster_ids: seq<nat>, u: nat)
    requires u < |cluster_ids|
    ensures InCluster(cluster_ids, cluster_ids[u])(u)
  {
  }

  lemma RowFilledNext(cluster_ids: seq<nat>, nc: nat, s: nat, row: seq<nat>, u: nat,
                      colidx: seq<seq<nat>>, index: seq<nat>, colidx': seq<seq<nat>>, index': seq<nat>)
    requires RowFilled(cluster_ids, nc, s, row, colidx, index, colidx', index') && s < nc
    requires u < |cluster_ids| && cluster_ids[u] < nc
    requires CellRoom(cluster_ids, Pid(nc, s, cluster_ids[u]), cluster_ids[u], row + [u], colidx, index)
    ensures var at := Pid(nc, s, cluster_ids[u]);
            && at < |colidx'| == |index'| && index'[at] < |colidx'[at]|
            && RowFilled(cluster_ids, nc, s, row + [u], colidx, index,
                         colidx'[at := Put(colidx'[at], index'[at], u)], index'[at := index'[at] + 1])
  {
    hide Pid, InCluster;
    var at := Pid(nc, s, cluster_ids[u]);
    assert (row + [u])[..|row|] == row;
    assert CellFilled(cluster_ids, at, true, cluster_ids[u], row, colidx, index, colidx', index');
    InClusterIs(cluster_ids, u);
    var colidx'', index'' := colidx'[at := Put(colidx'[at], index'[at], u)], index'[at := index'[at] + 1];
    forall i, j | 0 <= i < nc && 0 <= j < nc
      ensures CellFilled(cluster_ids, Pid(nc, i, j), i == s, j, row + [u], colidx, index, colidx'', index'')
    {
      if Pid(nc, i, j) == at {
        PidDistinct(nc, i, j, s, cluster_ids[u]);
      }
      CellFillNext(cluster_ids, Pid(nc, i, j), i == s, j, row, u, colidx, index, colidx', index', at);
    }
  }

  lemma RoomSoFar(cluster_ids: seq<nat>, nc: nat, s: nat, row: seq<nat>, e: nat, colidx: seq<seq<nat>>, index: seq<nat>)
    requires Room(cluster_ids, nc, s, row, colidx, index) && e < |row|
    requires row[e] < |cluster_ids| && cluster_ids[row[e]] < nc
    ensures CellRoom(cluster_ids, Pid(nc, s, cluster_ids[row[e]]), cluster_ids[row[e]], row[..e + 1], colidx, index)
  {
    hide Pid, Filter, InCluster;
    var j := cluster_ids[row[e]];
    assert CellRoom(cluster_ids, Pid(nc, s, j), j, row, colidx, index);
    FilterPrefix(row, InCluster(cluster_ids, j), e + 1);
  }

  method AppendRow(cluster_ids: seq<nat>, nc: nat, s: nat, row: seq<nat>, colidx: seq<seq<nat>>, index: seq<nat>)
    returns (colidx': seq<seq<nat>>, index': seq<nat>)
    requires Room(cluster_ids, nc, s, row, colidx, index) && s < nc
    requires forall u :: u in row ==> u < |cluster_ids| && cluster_ids[u] < nc
    ensures RowFilled(cluster_ids, nc, s, row, colidx, index, colidx', index')
  {
    hide *;
    colidx', index' := colidx, index;
    NothingFilled(cluster_ids, nc, s, row, colidx, index);
    assert row[..0] == [];
    for e := 0 to |row|
      invariant RowFilled(cluster_ids, nc, s, row[..e], colidx, index, colidx', index')
    {
      var u := row[e];
      assert u in row && row[..e + 1] == row[..e] + [u];
      RoomSoFar(cluster_ids, nc, s, row, e, colidx, index);
      RowFilledNext(cluster_ids, nc, s, row[..e], u, colidx, index, colidx', index');
      var pid := Pid(nc, s, cluster_ids[u]);
      colidx' := colidx'[pid := Put(colidx'[pid], index'[pid], u)];
      index' := index'[pid := index'[pid] + 1];
    }
    assert row[..|row|] == row;
  }

  ghost predicate BlockFilled(g: Csr, cluster_ids: seq<nat>, i: nat, j: nat, m: nat, pid: nat, colidx: seq<seq<nat>>,
                              index: seq<nat>)
    requires g.WellFormed() && m <= g.V() == |cluster_ids|
  {
    && pid < |colidx| && pid < |index|
    && index[pid] == |Flat(BlockRows(g, cluster_ids, i, j, m))|
    && |colidx[pid]| == |Flat(BlockRows(g, cluster_ids, i, j, g.V()))|
    && index[pid] <= |colidx[pid]|
    && colidx[pid][..index[pid]] == Flat(BlockRows(g, cluster_ids, i, j, m))
  }

  /** After the vertices below m: the cursor is at the end of their rows, which are filled in. */
  ghost predicate Filled(g: Csr, cluster_ids: seq<nat>, nc: nat, m: nat, colidx: seq<seq<nat>>, index: seq<nat>)
    requires g.WellFormed() && m <= g.V() == |cluster_ids|
  {
    && |colidx| == |index| == nc * nc
    && forall i, j :: 0 <= i < nc && 0 <= j < nc ==> BlockFilled(g, cluster_ids, i, j, m, Pid(nc, i, j), colidx, index)
  }

  lemma BlockFilledNext(g: Csr, cluster_ids: seq<nat>, i: nat, j: nat, v: nat, pid: nat,
                        colidx: seq<seq<nat>>, index: seq<nat>, colidx': seq<seq<nat>>, index': seq<nat>)
    requires g.WellFormed() && v < g.V() == |cluster_ids|
    requires BlockFilled(g, cluster_ids, i, j, v, pid, colidx, index)
    requires CellFilled(cluster_ids, pid, i == cluster_ids[v], j, g.N(v), colidx, index, colidx', index')
    ensures BlockFilled(g, cluster_ids, i, j, v + 1, pid, colidx', index')
  {
    hide Flat, BlockRows, Filter, InCluster;
    var rows := BlockRows(g, cluster_ids, i, j, v);
    BlockRowsNext(g, cluster_ids, i, j, v);
    if i == cluster_ids[v] {
      FlatNext(rows, RowBlock(g, cluster_ids, v, j));
    } else {
      assert rows + [] == rows;
    }
  }

  lemma FilledNext(g: Csr, cluster_ids: seq<nat>, nc: nat, v: nat,
                   colidx: seq<seq<nat>>, index: seq<nat>, colidx': seq<seq<nat>>, index': seq<nat>)
    requires g.WellFormed() && v < g.V() == |cluster_ids| && Filled(g, cluster_ids, nc, v, colidx, index)
    requires RowFilled(cluster_ids, nc, cluster_ids[v], g.N(v), colidx, index, colidx', index')
    ensures Filled(g, cluster_ids, nc, v + 1, colidx', index')
  {
    hide Pid, BlockFilled, CellFilled;
    forall i, j | 0 <= i < nc && 0 <= j < nc
      ensures BlockFilled(g, cluster_ids, i, j, v + 1, Pid(nc, i, j), colidx', index')
    {
      BlockFilledNext(g, cluster_ids, i, j, v, Pid(nc, i, j), colidx, index, colidx', index');
    }
  }

  lemma {:induction false} FlatGrows(g: Csr, cluster_ids: seq<nat>, i: nat, j: nat, v: nat, m: nat)
    requires g.WellFormed() && v <= m <= g.V() == |cluster_ids|
    ensures |Flat(BlockRows(g, cluster_ids, i, j, v))| <= |Flat(BlockRows(g, cluster_ids, i, j, m))|
    decreases m
  {
    if v < m {
      hide Flat, RowBlock;
      FlatGrows(g, cluster_ids, i, j, v, m - 1);
      FlatNext(BlockRows(g, cluster_ids, i, j, m - 1), RowBlock(g, cluster_ids, m - 1, j));
      assert BlockRows(g, cluster_ids, i, j, m - 1) + [] == BlockRows(g, cluster_ids, i, j, m - 1);
    }
  }

  lemma HasRoom(g: Csr, cluster_ids: seq<nat>, nc: nat, v: nat, colidx: seq<seq<nat>>, index: seq<nat>)
    requires g.Simple() && v < g.V() && Clustered(cluster_ids, nc, g.V())
             && Filled(g, cluster_ids, nc, v, colidx, index)
    ensures v + 1 < |g.vertices| && g.vertices[v] <= g.vertices[v + 1] <= |g.edges| && cluster_ids[v] < nc
    ensures Room(cluster_ids, nc, cluster_ids[v], g.N(v), colidx, index)
    ensures forall u :: u in g.N(v) ==> u < |cluster_ids| && cluster_ids[u] < nc
  {
    hide Pid, Flat, BlockRows, Filter, InCluster;
    var s := cluster_ids[v];
    forall j | 0 <= j < nc ensures CellRoom(cluster_ids, Pid(nc, s, j), j, g.N(v), colidx, index) {
      assert BlockFilled(g, cluster_ids, s, j, v, Pid(nc, s, j), colidx, index);
      BlockRowsNext(g, cluster_ids, s, j, v);
      FlatNext(BlockRows(g, cluster_ids, s, j, v), RowBlock(g, cluster_ids, v, j));
      FlatGrows(g, cluster_ids, s, j, v + 1, g.V());
    }
  }

  // ---------- Row pointers ----------

  lemma {:induction false} StartsAreSums(rows: seq<seq<nat>>, degrees: seq<nat>, k: nat)
    requires |degrees| == |rows| && k <= |rows| && forall r :: 0 <= r < |rows| ==> degrees[r] == |rows[r]|
    ensures Start(rows, k) == SumRange(degrees, 0, k)
    decreases k
  {
    if k > 0 {
      StartsAreSums(rows, degrees, k - 1);
    }
  }

  lemma PointersOfBlock(g: Csr, cluster_ids: seq<nat>, i: nat, j: nat, pid: nat, degrees: seq<seq<nat>>, nes: seq<nat>,
                        rowptr: seq<nat>)
    requires g.WellFormed() && g.V() == |cluster_ids| && BlockCounted(g, cluster_ids, i, j, g.V(), pid, degrees, nes)
    requires IsPrefixSum(degrees[pid], rowptr)
    ensures rowptr == RowStarts(BlockRows(g, cluster_ids, i, j, g.V()))
  {
    hide Members, BlockRows, SumRange, Start, Flat;
    var rows := BlockRows(g, cluster_ids, i, j, g.V());
    BlockRowsAre(g, cluster_ids, i, j, g.V());
    forall k | 0 <= k <= |rows| ensures rowptr[k] == Start(rows, k) {
      StartsAreSums(rows, degrees[pid], k);
    }
  }

  ghost predicate IsBlock(g: Csr, cluster_ids: seq<nat>, i: nat, j: nat, rowptr: seq<nat>, colidx: seq<nat>)
    requires g.WellFormed() && g.V() == |cluster_ids|
  {
    && rowptr == RowStarts(BlockRows(g, cluster_ids, i, j, g.V()))
    && colidx == Flat(BlockRows(g, cluster_ids, i, j, g.V()))
  }

  /** The blocks in compressed form. */
  ghost predicate AreBlocks(g: Csr, cluster_ids: seq<nat>, nc: nat, rowptr: seq<seq<nat>>, colidx: seq<seq<nat>>)
    requires g.WellFormed() && g.V() == |cluster_ids|
  {
    && |rowptr| == |colidx| == nc * nc
    && forall i, j :: 0 <= i < nc && 0 <= j < nc ==>
         Pid(nc, i, j) < nc * nc && IsBlock(g, cluster_ids, i, j, rowptr[Pid(nc, i, j)], colidx[Pid(nc, i, j)])
  }

  /** The neighbours of source r in cluster j, ascending. */
  ghost predicate RowListed(adj: Adjacency, sources: seq<nat>, cluster_ids: seq<nat>, j: nat, ptrs: seq<nat>,
                            cols: seq<nat>, r: nat)
    requires r < |sources| && |ptrs| == |sources| + 1
  {
    && ptrs[r] <= ptrs[r + 1] <= |cols| && StrictlyIncreasing(cols[ptrs[r]..ptrs[r + 1]])
    && forall u: nat :: u in cols[ptrs[r]..ptrs[r + 1]] <==>
         Adj(adj, sources[r], u) && u < |cluster_ids| && cluster_ids[u] == j
  }

  /** The sources' neighbours in cluster j, source by source, and nothing else. */
  ghost predicate ListsEdges(adj: Adjacency, sources: seq<nat>, cluster_ids: seq<nat>, j: nat, ptrs: seq<nat>,
                             cols: seq<nat>) {
    && |ptrs| == |sources| + 1 && ptrs[0] == 0 && ptrs[|sources|] == |cols|
    && forall r :: 0 <= r < |sources| ==> RowListed(adj, sources, cluster_ids, j, ptrs, cols, r)
  }

  lemma RowBlockHolds(g: Csr, cluster_ids: seq<nat>, v: nat, j: nat)
    requires g.Simple() && v < g.V()
    ensures StrictlyIncreasing(RowBlock(g, cluster_ids, v, j))
    ensures forall u: nat :: u in RowBlock(g, cluster_ids, v, j) <==>
              Adj(g.Adjacency(), v, u) && u < |cluster_ids| && cluster_ids[u] == j
  {
    FilterIncreasing(g.N(v), InCluster(cluster_ids, j));
    FilterMembers(g.N(v), InCluster(cluster_ids, j));
    assert g.Adjacency()[v] == Elements(g.N(v));
  }

  lemma StartNothing(lists: seq<seq<nat>>)
    ensures Start(lists, 0) == 0
  {
  }

  lemma BlockListsEdges(g: Csr, cluster_ids: seq<nat>, i: nat, j: nat, rowptr: seq<nat>, colidx: seq<nat>)
    requires g.Simple() && g.V() == |cluster_ids| && IsBlock(g, cluster_ids, i, j, rowptr, colidx)
    ensures ListsEdges(g.Adjacency(), Members(cluster_ids, i, |cluster_ids|), cluster_ids, j, rowptr, colidx)
  {
    hide Members, BlockRows, RowBlock, StrictlyIncreasing, Joined, Start, Csr.Simple;
    SimpleIsWellFormed(g);
    var sources, rows := Members(cluster_ids, i, |cluster_ids|), BlockRows(g, cluster_ids, i, j, g.V());
    BlockRowsAre(g, cluster_ids, i, j, g.V());
    StartNothing(rows);
    JoinedLength(rows, |rows|);
    forall r | 0 <= r < |sources| ensures RowListed(g.Adjacency(), sources, cluster_ids, j, rowptr, colidx, r) {
      FlatRow(rows, |rows|, r);
      RowBlockHolds(g, cluster_ids, sources[r], j);
    }
  }

  /** The block from cluster i to cluster j, whose vertices are verts, is number i * nc + j. */
  ghost predicate BlockIsAt(adj: Adjacency, cluster_ids: seq<nat>, nc: nat, verts: seq<nat>, i: nat, j: nat,
                            rowptr: seq<seq<nat>>, colidx: seq<seq<nat>>) {
    && i * nc + j < |rowptr| == |colidx|
    && ListsEdges(adj, verts, cluster_ids, j, rowptr[i * nc + j], colidx[i * nc + j])
  }

  lemma BlocksAreAt(g: Csr, cluster_ids: seq<nat>, nc: nat, verts_of_clusters: seq<seq<nat>>, ranks: seq<nat>,
                    rowptr: seq<seq<nat>>, colidx: seq<seq<nat>>, i: nat, j: nat)
    requires g.Simple() && g.V() == |cluster_ids| && Lists(cluster_ids, nc, verts_of_clusters, ranks)
    requires AreBlocks(g, cluster_ids, nc, rowptr, colidx) && i < nc && j < nc
    ensures |verts_of_clusters| == nc
    ensures BlockIsAt(g.Adjacency(), cluster_ids, nc, verts_of_clusters[i], i, j, rowptr, colidx)
  {
    hide Pid, IsBlock, ListsEdges, Csr.Simple, Members;
    SimpleIsWellFormed(g);
    PidIs(nc, i, j);
    var p := i * nc + j;
    assert IsBlock(g, cluster_ids, i, j, rowptr[Pid(nc, i, j)], colidx[Pid(nc, i, j)]);
    BlockListsEdges(g, cluster_ids, i, j, rowptr[p], colidx[p]);
  }

  lemma BlocksMade(g: Csr, cluster_ids: seq<nat>, nc: nat, degrees: seq<seq<nat>>, nes: seq<nat>, rowptr: seq<seq<nat>>,
                   colidx: seq<seq<nat>>, index: seq<nat>)
    requires g.WellFormed() && g.V() == |cluster_ids| && Counted(g, cluster_ids, nc, g.V(), degrees, nes)
    requires Filled(g, cluster_ids, nc, g.V(), colidx, index)
    requires |rowptr| == nc * nc && forall p :: 0 <= p < nc * nc ==> IsPrefixSum(degrees[p], rowptr[p])
    ensures AreBlocks(g, cluster_ids, nc, rowptr, colidx)
  {
    hide Pid, IsPrefixSum, Flat, BlockRows, RowStarts;
    forall i, j | 0 <= i < nc && 0 <= j < nc
      ensures Pid(nc, i, j) < nc * nc && IsBlock(g, cluster_ids, i, j, rowptr[Pid(nc, i, j)], colidx[Pid(nc, i, j)])
    {
      var pid := Pid(nc, i, j);
      assert BlockCounted(g, cluster_ids, i, j, g.V(), pid, degrees, nes);
      assert BlockFilled(g, cluster_ids, i, j, g.V(), pid, colidx, index);
      PointersOfBlock(g, cluster_ids, i, j, pid, degrees, nes, rowptr[pid]);
      assert colidx[pid][..index[pid]] == colidx[pid];
    }
  }

  lemma CountedStart(g: Csr, cluster_ids: seq<nat>, nc: nat, verts_of_clusters: seq<seq<nat>>, ranks: seq<nat>,
                     degrees: seq<seq<nat>>)
    requires g.WellFormed() && g.V() == |cluster_ids| && Lists(cluster_ids, nc, verts_of_clusters, ranks)
             && |degrees| == nc * nc
    requires forall i, j :: 0 <= i < nc && 0 <= j < nc ==>
               Pid(nc, i, j) < |degrees| && degrees[Pid(nc, i, j)] == seq(|verts_of_clusters[i]|, r => 0)
    ensures Counted(g, cluster_ids, nc, 0, degrees, seq(nc * nc, p => 0))
  {
    hide Pid, Members;
    var nes := seq(nc * nc, p => 0);
    forall i, j | 0 <= i < nc && 0 <= j < nc
      ensures BlockCounted(g, cluster_ids, i, j, 0, Pid(nc, i, j), degrees, nes)
    {
    }
  }

  lemma FilledStart(g: Csr, cluster_ids: seq<nat>, nc: nat, degrees: seq<seq<nat>>, nes: seq<nat>,
                    colidx: seq<seq<nat>>)
    requires g.WellFormed() && g.V() == |cluster_ids| && Counted(g, cluster_ids, nc, g.V(), degrees, nes)
    requires |colidx| == nc * nc && forall p :: 0 <= p < nc * nc ==> |colidx[p]| == nes[p]
    ensures Filled(g, cluster_ids, nc, 0, colidx, seq(nc * nc, p => 0))
  {
    hide Pid, Members;
    var index := seq(nc * nc, p => 0);
    forall i, j | 0 <= i < nc && 0 <= j < nc
      ensures BlockFilled(g, cluster_ids, i, j, 0, Pid(nc, i, j), colidx, index)
    {
      assert BlockCounted(g, cluster_ids, i, j, g.V(), Pid(nc, i, j), degrees, nes);
    }
  }

  method AllocateBlocks(np: nat, degrees: seq<seq<nat>>, nes: seq<nat>)
    returns (rowptr: seq<seq<nat>>, colidx: seq<seq<nat>>)
    requires |degrees| == |nes| == np
    ensures |rowptr| == |colidx| == np
    ensures forall p :: 0 <= p < np ==> IsPrefixSum(degrees[p], rowptr[p]) && |colidx[p]| == nes[p]
  {
    hide IsPrefixSum;
    rowptr, colidx := [], [];
    for i := 0 to np
      invariant |rowptr| == |colidx| == i
      invariant forall p :: 0 <= p < i ==> IsPrefixSum(degrees[p], rowptr[p]) && |colidx[p]| == nes[p]
    {
      var pointers := PrefixSum(degrees[i]);
      rowptr := rowptr + [pointers];
      colidx := colidx + [seq(nes[i], k => 0)];
    }
  }

  lemma ClusteredLength(cluster_ids: seq<nat>, nc: nat, nv: nat)
    requires Clustered(cluster_ids, nc, nv)
    ensures |cluster_ids| == nv
  {
  }

  lemma ListsLength(cluster_ids: seq<nat>, nc: nat, verts_of_clusters: seq<seq<nat>>, ranks: seq<nat>)
    requires Lists(cluster_ids, nc, verts_of_clusters, ranks)
    ensures |verts_of_clusters| == nc && |ranks| == |cluster_ids|
  {
  }

  lemma RankIs(cluster_ids: seq<nat>, nc: nat, verts_of_clusters: seq<seq<nat>>, ranks: seq<nat>, v: nat)
    requires Lists(cluster_ids, nc, verts_of_clusters, ranks) && v < |cluster_ids|
    ensures |ranks| == |cluster_ids| && ranks[v] == Rank(cluster_ids, v)
  {
  }

  lemma CountedSizes(g: Csr, cluster_ids: seq<nat>, nc: nat, m: nat, degrees: seq<seq<nat>>, nes: seq<nat>)
    requires g.WellFormed() && m <= g.V() == |cluster_ids| && Counted(g, cluster_ids, nc, m, degrees, nes)
    ensures |degrees| == |nes| == nc * nc
  {
  }

  lemma BlockCount(g: Csr, cluster_ids: seq<nat>, nc: nat, rowptr: seq<seq<nat>>, colidx: seq<seq<nat>>)
    requires g.WellFormed() && g.V() == |cluster_ids| && AreBlocks(g, cluster_ids, nc, rowptr, colidx)
    ensures |rowptr| == |colidx| == nc * nc
  {
  }

  /** Count, scan, fill, for all blocks at once. */
  method MakeBlocks(g: Csr, cluster_ids: seq<nat>, nc: nat, verts_of_clusters: seq<seq<nat>>,
                    vertex_rank_in_cluster: seq<nat>)
    returns (rowptr: seq<seq<nat>>, colidx: seq<seq<nat>>)
    requires g.Simple() && Clustered(cluster_ids, nc, g.V())
             && Lists(cluster_ids, nc, verts_of_clusters, vertex_rank_in_cluster)
    ensures g.WellFormed() && g.V() == |cluster_ids| && AreBlocks(g, cluster_ids, nc, rowptr, colidx)
    ensures |rowptr| == |colidx| == nc * nc && |verts_of_clusters| == nc
    ensures forall i, j :: 0 <= i < nc && 0 <= j < nc ==>
              BlockIsAt(g.Adjacency(), cluster_ids, nc, verts_of_clusters[i], i, j, rowptr, colidx)
  {
    hide *;
    SimpleIsWellFormed(g);
    VertexCount(g);
    ClusteredLength(cluster_ids, nc, g.V());
    ListsLength(cluster_ids, nc, verts_of_clusters, vertex_rank_in_cluster);
    var nv := |g.vertices| - 1;
    var degrees := NewDegrees(nc, verts_of_clusters);
    var nes_of_partitions: seq<nat> := seq(nc * nc, p => 0);
    CountedStart(g, cluster_ids, nc, verts_of_clusters, vertex_rank_in_cluster, degrees);
    for v := 0 to nv
      invariant Counted(g, cluster_ids, nc, v, degrees, nes_of_partitions)
    {
      RowReady(g, cluster_ids, nc, v, degrees, nes_of_partitions);
      ghost var degreesBefore, nesBefore := degrees, nes_of_partitions;
      RankIs(cluster_ids, nc, verts_of_clusters, vertex_rank_in_cluster, v);
      degrees, nes_of_partitions := CountRow(cluster_ids, nc, cluster_ids[v], vertex_rank_in_cluster[v], g.N(v),
                                             degrees, nes_of_partitions);
      CountedNext(g, cluster_ids, nc, v, degreesBefore, nesBefore, degrees, nes_of_partitions);
    }
    CountedSizes(g, cluster_ids, nc, nv, degrees, nes_of_partitions);
    rowptr, colidx := AllocateBlocks(nc * nc, degrees, nes_of_partitions);
    var index: seq<nat> := seq(nc * nc, p => 0);
    FilledStart(g, cluster_ids, nc, degrees, nes_of_partitions, colidx);
    for v := 0 to nv
      invariant Filled(g, cluster_ids, nc, v, colidx, index)
    {
      HasRoom(g, cluster_ids, nc, v, colidx, index);
      ghost var colidxBefore, indexBefore := colidx, index;
      colidx, index := AppendRow(cluster_ids, nc, cluster_ids[v], g.N(v), colidx, index);
      FilledNext(g, cluster_ids, nc, v, colidxBefore, indexBefore, colidx, index);
    }
    BlocksMade(g, cluster_ids, nc, degrees, nes_of_partitions, rowptr, colidx, index);
    BlockCount(g, cluster_ids, nc, rowptr, colidx);
    forall i, j | 0 <= i < nc && 0 <= j < nc
      ensures BlockIsAt(g.Adjacency(), cluster_ids, nc, verts_of_clusters[i], i, j, rowptr, colidx)
    {
      BlocksAreAt(g, cluster_ids, nc, verts_of_clusters, vertex_rank_in_cluster, rowptr, colidx, i, j);
    }
  }

  // ---------- The files ----------

  /** What is written: offsets, and all row pointers and column indices end to end. */
  datatype PartitionFiles = PartitionFiles(voffsets: seq<nat>, eoffsets: seq<nat>, vertices: seq<nat>, edges: seq<nat>)

  ghost predicate IsSlice(file: seq<nat>, offsets: seq<nat>, p: nat, part: seq<nat>) {
    p + 1 < |offsets| && offsets[p] <= offsets[p + 1] <= |file| && file[offsets[p]..offsets[p + 1]] == part
  }

  /** Block p starts at offsets[p]. */
  ghost predicate IsConcatenation(parts: seq<seq<nat>>, offsets: seq<nat>, file: seq<nat>) {
    && |offsets| == |parts| + 1 && offsets[0] == 0 && offsets[|parts|] == |file|
    && forall p :: 0 <= p < |parts| ==> IsSlice(file, offsets, p, parts[p])
  }

  ghost predicate Holds(files: PartitionFiles, rowptr: seq<seq<nat>>, colidx: seq<seq<nat>>) {
    IsConcatenation(rowptr, files.voffsets, files.vertices) && IsConcatenation(colidx, files.eoffsets, files.edges)
  }

  method Lengths(parts: seq<seq<nat>>) returns (lengths: seq<nat>)
    ensures |lengths| == |parts| && forall p :: 0 <= p < |parts| ==> lengths[p] == |parts[p]|
  {
    lengths := [];
    for i := 0 to |parts|
      invariant |lengths| == i && forall p :: 0 <= p < i ==> lengths[p] == |parts[p]|
    {
      lengths := lengths + [|parts[i]|];
    }
  }

  lemma ConcatenationAt(parts: seq<seq<nat>>, lengths: seq<nat>, offsets: seq<nat>)
    requires |lengths| == |parts| && forall p :: 0 <= p < |parts| ==> lengths[p] == |parts[p]|
    requires IsPrefixSum(lengths, offsets)
    ensures IsConcatenation(parts, offsets, Joined(parts, |parts|))
  {
    hide Joined, Start;
    StartsAreSums(parts, lengths, |parts|);
    JoinedLength(parts, |parts|);
    hide SumRange;
    forall p | 0 <= p < |parts| ensures IsSlice(Joined(parts, |parts|), offsets, p, parts[p]) {
      StartsAreSums(parts, lengths, p);
      StartsAreSums(parts, lengths, p + 1);
      FlatRow(parts, |parts|, p);
    }
  }

  method WriteParts(parts: seq<seq<nat>>, blockSize: nat) returns (offsets: seq<nat>, file: seq<nat>)
    requires blockSize > 0
    ensures IsConcatenation(parts, offsets, file)
  {
    var lengths := Lengths(parts);
    offsets := ParallelPrefixSum(lengths, blockSize);
    file := [];
    for i := 0 to |parts|
      invariant file == Joined(parts, i)
    {
      file := file + parts[i];
    }
    ConcatenationAt(parts, lengths, offsets);
  }

  // ---------- Where the blocks are in the files ----------

  /** From its offset on, each file has part i * nc + j of the block from cluster i, whose vertices are verts, to
      cluster j: its row pointers, and its edges. */
  ghost predicate BlockInFiles(adj: Adjacency, cluster_ids: seq<nat>, nc: nat, verts: seq<nat>, i: nat, j: nat,
                               files: PartitionFiles) {
    var p := i * nc + j;
    && p + 1 < |files.voffsets| && files.voffsets[p] <= files.voffsets[p + 1] <= |files.vertices|
    && p + 1 < |files.eoffsets| && files.eoffsets[p] <= files.eoffsets[p + 1] <= |files.edges|
    && ListsEdges(adj, verts, cluster_ids, j, files.vertices[files.voffsets[p]..files.voffsets[p + 1]],
                  files.edges[files.eoffsets[p]..files.eoffsets[p + 1]])
  }

  /** The files have nc * nc parts each, end to end, and nothing else. */
  ghost predicate HasParts(nc: nat, files: PartitionFiles) {
    && |files.voffsets| == |files.eoffsets| == nc * nc + 1 && files.voffsets[0] == files.eoffsets[0] == 0
    && files.voffsets[nc * nc] == |files.vertices| && files.eoffsets[nc * nc] == |files.edges|
  }

  lemma FilesHaveParts(nc: nat, files: PartitionFiles, rowptr: seq<seq<nat>>, colidx: seq<seq<nat>>)
    requires |rowptr| == |colidx| == nc * nc && Holds(files, rowptr, colidx)
    ensures HasParts(nc, files)
  {
  }

  lemma BlockIsInFiles(adj: Adjacency, cluster_ids: seq<nat>, nc: nat, verts: seq<nat>, i: nat, j: nat,
                       files: PartitionFiles, rowptr: seq<seq<nat>>, colidx: seq<seq<nat>>)
    requires BlockIsAt(adj, cluster_ids, nc, verts, i, j, rowptr, colidx) && Holds(files, rowptr, colidx)
    ensures BlockInFiles(adj, cluster_ids, nc, verts, i, j, files)
  {
    hide ListsEdges;
    var p := i * nc + j;
    assert IsSlice(files.vertices, files.voffsets, p, rowptr[p]) && IsSlice(files.edges, files.eoffsets, p, colidx[p]);
  }
}
