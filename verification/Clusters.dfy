/** Vertices by cluster, and the blocks of edges between two clusters
    (sansa/src/common/graph_partition.cc:200-312). */
module Clusters {
  import opened Counting
  import opened Arithmetic
  import opened CsrGraph
  import opened EdgeFilter

  /** The vertices below m in cluster c, in order. */
  ghost function Members(cluster_ids: seq<nat>, c: nat, m: nat): seq<nat>
    requires m <= |cluster_ids|
  {
    if m == 0 then [] else Members(cluster_ids, c, m - 1) + if cluster_ids[m - 1] == c then [m - 1] else []
  }

  lemma {:induction false} MembersAre(cluster_ids: seq<nat>, c: nat, m: nat)
    requires m <= |cluster_ids|
    ensures StrictlyIncreasing(Members(cluster_ids, c, m))
    ensures forall v: nat :: v in Members(cluster_ids, c, m) <==> v < m && cluster_ids[v] == c
  {
    if m > 0 {
      MembersAre(cluster_ids, c, m - 1);
      if cluster_ids[m - 1] == c {
        AppendIncreasing(Members(cluster_ids, c, m - 1), m - 1);
      }
    }
  }

  /** A vertex's rank is the number of earlier vertices of its cluster. */
  ghost function Rank(cluster_ids: seq<nat>, v: nat): nat
    requires v < |cluster_ids|
  {
    |Members(cluster_ids, cluster_ids[v], v)|
  }

  lemma {:induction false} RankIsPosition(cluster_ids: seq<nat>, v: nat, m: nat)
    requires v < m <= |cluster_ids|
    ensures Rank(cluster_ids, v) < |Members(cluster_ids, cluster_ids[v], m)|
    ensures Members(cluster_ids, cluster_ids[v], m)[Rank(cluster_ids, v)] == v
    decreases m
  {
    if v < m - 1 {
      RankIsPosition(cluster_ids, v, m - 1);
    }
  }

  lemma SamePlace(s: seq<nat>, i: nat, j: nat)
    requires StrictlyIncreasing(s) && i < |s| && j < |s| && s[i] == s[j]
    ensures i == j
  {
  }

  lemma PositionIsRank(cluster_ids: seq<nat>, c: nat, m: nat, r: nat)
    requires m <= |cluster_ids| && r < |Members(cluster_ids, c, m)|
    ensures var v := Members(cluster_ids, c, m)[r];
            v < m && cluster_ids[v] == c && Rank(cluster_ids, v) == r
  {
    hide Members, StrictlyIncreasing, Rank;
    var ms := Members(cluster_ids, c, m);
    var v := ms[r];
    MembersAre(cluster_ids, c, m);
    assert v in ms;
    RankIsPosition(cluster_ids, v, m);
    SamePlace(ms, Rank(cluster_ids, v), r);
  }

  ghost predicate Clustered(cluster_ids: seq<nat>, nc: nat, nv: nat) {
    |cluster_ids| == nv && forall v :: 0 <= v < nv ==> cluster_ids[v] < nc
  }

  /** The clusters hold the vertices in order, each with its rank. */
  ghost predicate Lists(cluster_ids: seq<nat>, nc: nat, verts_of_clusters: seq<seq<nat>>,
                        vertex_rank_in_cluster: seq<nat>) {
    && |verts_of_clusters| == nc && |vertex_rank_in_cluster| == |cluster_ids|
    && (forall c :: 0 <= c < nc ==> verts_of_clusters[c] == Members(cluster_ids, c, |cluster_ids|))
    && forall v :: 0 <= v < |cluster_ids| ==> vertex_rank_in_cluster[v] == Rank(cluster_ids, v)
  }

  lemma MembersNext(cluster_ids: seq<nat>, c: nat, v: nat)
    requires v < |cluster_ids|
    ensures Members(cluster_ids, c, v + 1) == Members(cluster_ids, c, v) + if cluster_ids[v] == c then [v] else []
    ensures Members(cluster_ids, c, 0) == []
  {
  }

  lemma NoMembers(cluster_ids: seq<nat>, c: nat)
    ensures Members(cluster_ids, c, 0) == []
  {
  }

  /** Fills the vertices into clusters. */
  method FillClusters(nv: nat, nc: nat, cluster_ids: seq<nat>)
    returns (verts_of_clusters: seq<seq<nat>>, vertex_rank_in_cluster: seq<nat>)
    requires Clustered(cluster_ids, nc, nv)
    ensures Lists(cluster_ids, nc, verts_of_clusters, vertex_rank_in_cluster)
  {
    hide Members;
    verts_of_clusters := seq(nc, i => []);
    vertex_rank_in_cluster := seq(nv, i => 0);
    var nvs_of_clusters: seq<nat> := seq(nc, i => 0);
    forall c | 0 <= c < nc ensures Members(cluster_ids, c, 0) == [] {
      NoMembers(cluster_ids, c);
    }
    for v := 0 to nv
      invariant |verts_of_clusters| == |nvs_of_clusters| == nc && |vertex_rank_in_cluster| == nv
      invariant forall c :: 0 <= c < nc ==>
                  verts_of_clusters[c] == Members(cluster_ids, c, v) && nvs_of_clusters[c] == |verts_of_clusters[c]|
      invariant forall w :: 0 <= w < v ==> vertex_rank_in_cluster[w] == Rank(cluster_ids, w)
    {
      var cid := cluster_ids[v];
      forall c | 0 <= c < nc
        ensures Members(cluster_ids, c, v + 1) == Members(cluster_ids, c, v) + if cid == c then [v] else []
      {
        MembersNext(cluster_ids, c, v);
      }
      verts_of_clusters := verts_of_clusters[cid := verts_of_clusters[cid] + [v]];
      vertex_rank_in_cluster := vertex_rank_in_cluster[v := nvs_of_clusters[cid]];
      nvs_of_clusters := nvs_of_clusters[cid := nvs_of_clusters[cid] + 1];
    }
  }

  // ---------- Blocks ----------

  function InCluster(cluster_ids: seq<nat>, c: nat): nat -> bool {
    (u: nat) => u < |cluster_ids| && cluster_ids[u] == c
  }

  /** The neighbours of v in cluster j. */
  ghost function RowBlock(g: Csr, cluster_ids: seq<nat>, v: nat, j: nat): seq<nat>
    requires g.WellFormed() && v < g.V()
  {
    Filter(g.N(v), InCluster(cluster_ids, j))
  }

  /** The edges from cluster i to cluster j, for the sources below m, source by source. */
  ghost function BlockRows(g: Csr, cluster_ids: seq<nat>, i: nat, j: nat, m: nat): seq<seq<nat>>
    requires g.WellFormed() && m <= g.V() == |cluster_ids|
  {
    if m == 0 then []
    else
      BlockRows(g, cluster_ids, i, j, m - 1)
      + if cluster_ids[m - 1] == i then [RowBlock(g, cluster_ids, m - 1, j)] else []
  }

  lemma BlockRowsNext(g: Csr, cluster_ids: seq<nat>, i: nat, j: nat, v: nat)
    requires g.WellFormed() && v < g.V() == |cluster_ids|
    ensures BlockRows(g, cluster_ids, i, j, v + 1)
            == BlockRows(g, cluster_ids, i, j, v) + if cluster_ids[v] == i then [RowBlock(g, cluster_ids, v, j)] else []
  {
  }

  lemma {:induction false} BlockRowsAre(g: Csr, cluster_ids: seq<nat>, i: nat, j: nat, m: nat)
    requires g.WellFormed() && m <= g.V() == |cluster_ids|
    ensures |BlockRows(g, cluster_ids, i, j, m)| == |Members(cluster_ids, i, m)|
    ensures forall r :: 0 <= r < |Members(cluster_ids, i, m)| ==>
              Members(cluster_ids, i, m)[r] < g.V()
              && BlockRows(g, cluster_ids, i, j, m)[r] == RowBlock(g, cluster_ids, Members(cluster_ids, i, m)[r], j)
    decreases m
  {
    if m > 0 {
      hide RowBlock;
      BlockRowsAre(g, cluster_ids, i, j, m - 1);
    }
  }

  /** All rows, end to end. */
  ghost function Flat(rows: seq<seq<nat>>): seq<nat> {
    Joined(rows, |rows|)
  }

  lemma {:induction false} JoinedPrefix(a: seq<seq<nat>>, b: seq<seq<nat>>, m: nat)
    requires m <= |a| && m <= |b| && forall k :: 0 <= k < m ==> a[k] == b[k]
    ensures Joined(a, m) == Joined(b, m) && Start(a, m) == Start(b, m)
    decreases m
  {
    if m > 0 {
      JoinedPrefix(a, b, m - 1);
    }
  }

  lemma FlatNext(rows: seq<seq<nat>>, row: seq<nat>)
    ensures Flat(rows + [row]) == Flat(rows) + row
    ensures Flat([]) == []
  {
    JoinedPrefix(rows + [row], rows, |rows|);
  }

  /** The row pointers of a block. */
  ghost function RowStarts(rows: seq<seq<nat>>): seq<nat> {
    seq(|rows| + 1, k requires 0 <= k => Start(rows, k))
  }

  lemma {:induction false} FlatRow(rows: seq<seq<nat>>, m: nat, r: nat)
    requires r < m <= |rows|
    ensures Start(rows, r) + |rows[r]| == Start(rows, r + 1) <= |Joined(rows, m)|
    ensures Joined(rows, m)[Start(rows, r)..Start(rows, r + 1)] == rows[r]
    decreases m
  {
    JoinedLength(rows, m - 1);
    if r < m - 1 {
      FlatRow(rows, m - 1, r);
      assert Joined(rows, m)[Start(rows, r)..Start(rows, r + 1)]
             == Joined(rows, m - 1)[Start(rows, r)..Start(rows, r + 1)];
    }
  }

  /** The partition of edges from cluster i to cluster j. */
  function Pid(nc: nat, i: nat, j: nat): nat {
    Index(nc, i, j)
  }

  /** Row by row: all blocks of cluster 0 come first. */
  lemma PidIs(nc: nat, i: nat, j: nat)
    ensures Pid(nc, i, j) == i * nc + j
  {
  }

  lemma PidBelow(nc: nat, i: nat, j: nat)
    requires i < nc && j < nc
    ensures Pid(nc, i, j) < nc * nc
  {
    IndexBounded(nc, nc, i, j);
  }

  lemma PidDistinct(nc: nat, i: nat, j: nat, i': nat, j': nat)
    requires j < nc && j' < nc && Pid(nc, i, j) == Pid(nc, i', j')
    ensures i == i' && j == j'
  {
    IndexParts(nc, i, j);
    IndexParts(nc, i', j');
  }
}
