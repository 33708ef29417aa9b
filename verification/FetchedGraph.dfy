/** The subgraph of some clusters, put together from their blocks: what it is
    (sansa/src/common/graph_partition.cc:314-421). */
module FetchedGraph {
  import opened Counting
  import opened CsrGraph
  import opened EdgeFilter
  import opened Induced
  import opened Clusters

  /** The vertices of the chosen clusters, cluster by cluster. */
  ghost function ChosenLists(cluster_ids: seq<nat>, clusters: seq<nat>): (lists: seq<seq<nat>>)
    ensures |lists| == |clusters|
  {
    seq(|clusters|, a requires 0 <= a < |clusters| => Members(cluster_ids, clusters[a], |cluster_ids|))
  }

  ghost function ChosenIds(cluster_ids: seq<nat>, clusters: seq<nat>): seq<nat> {
    Flat(ChosenLists(cluster_ids, clusters))
  }

  /** The neighbours of v in each chosen cluster. */
  ghost function SubBlocks(g: Csr, cluster_ids: seq<nat>, clusters: seq<nat>, v: nat): (blocks: seq<seq<nat>>)
    requires g.WellFormed() && v < g.V()
    ensures |blocks| == |clusters|
  {
    seq(|clusters|, b requires 0 <= b < |clusters| => RowBlock(g, cluster_ids, v, clusters[b]))
  }

  ghost predicate IsIdMap(ids: seq<nat>, m: map<nat, nat>) {
    forall k :: 0 <= k < |ids| ==> ids[k] in m && m[ids[k]] == k
  }

  /** std::map::operator[]. */
  function LocalOf(m: map<nat, nat>, u: nat): nat {
    if u in m then m[u] else 0
  }

  ghost function Localised(m: map<nat, nat>, row: seq<nat>): (r: seq<nat>)
    ensures |r| == |row|
  {
    seq(|row|, i requires 0 <= i < |row| => LocalOf(m, row[i]))
  }

  lemma LocalisedConcat(m: map<nat, nat>, a: seq<nat>, b: seq<nat>)
    ensures Localised(m, a + b) == Localised(m, a) + Localised(m, b)
  {
  }

  // ---------- Where a vertex of a chosen cluster is ----------

  /** The vertex of rank r in the a-th chosen cluster. */
  lemma PlaceInIds(cluster_ids: seq<nat>, clusters: seq<nat>, a: nat, r: nat)
    requires a < |clusters| && r < |Members(cluster_ids, clusters[a], |cluster_ids|)|
    ensures var lists := ChosenLists(cluster_ids, clusters);
            && Start(lists, a) + r < Start(lists, a + 1) <= |ChosenIds(cluster_ids, clusters)|
            && Start(lists, a + 1) == Start(lists, a) + |lists[a]|
            && ChosenIds(cluster_ids, clusters)[Start(lists, a) + r]
               == Members(cluster_ids, clusters[a], |cluster_ids|)[r]
  {
    hide Members, Joined, Start;
    var lists := ChosenLists(cluster_ids, clusters);
    FlatRow(lists, |lists|, a);
    var ids := ChosenIds(cluster_ids, clusters);
    assert ids[Start(lists, a)..Start(lists, a + 1)][r] == ids[Start(lists, a) + r];
  }

  /** Every position of the joined lists is in one of them. */
  lemma {:induction false} ListOfPosition(lists: seq<seq<nat>>, m: nat, k: nat) returns (a: nat)
    requires m <= |lists| && k < |Joined(lists, m)|
    ensures a < m && Start(lists, a) <= k < Start(lists, a + 1) == Start(lists, a) + |lists[a]|
    ensures Joined(lists, m)[k] == lists[a][k - Start(lists, a)]
    decreases m
  {
    JoinedLength(lists, m - 1);
    if k < |Joined(lists, m - 1)| {
      a := ListOfPosition(lists, m - 1, k);
    } else {
      a := m - 1;
    }
  }

  lemma {:induction false} StartsOrdered(lists: seq<seq<nat>>, a: nat, b: nat)
    requires a <= b <= |lists|
    ensures Start(lists, a) <= Start(lists, b)
    decreases b
  {
    if a < b {
      StartsOrdered(lists, a, b - 1);
    }
  }

  /** What a position of the local numbering stands for. */
  lemma IdAt(cluster_ids: seq<nat>, clusters: seq<nat>, k: nat) returns (a: nat)
    requires k < |ChosenIds(cluster_ids, clusters)|
    ensures a < |clusters| && ChosenIds(cluster_ids, clusters)[k] < |cluster_ids|
    ensures cluster_ids[ChosenIds(cluster_ids, clusters)[k]] == clusters[a]
    ensures k == Start(ChosenLists(cluster_ids, clusters), a) + Rank(cluster_ids, ChosenIds(cluster_ids, clusters)[k])
    ensures k < Start(ChosenLists(cluster_ids, clusters), a + 1)
  {
    hide Members, Joined, Start, Rank;
    var lists := ChosenLists(cluster_ids, clusters);
    a := ListOfPosition(lists, |lists|, k);
    PositionIsRank(cluster_ids, clusters[a], |cluster_ids|, k - Start(lists, a));
  }

  lemma VertexPlace(cluster_ids: seq<nat>, clusters: seq<nat>, a: nat, v: nat)
    requires a < |clusters| && v < |cluster_ids| && cluster_ids[v] == clusters[a]
    ensures var k := Start(ChosenLists(cluster_ids, clusters), a) + Rank(cluster_ids, v);
            && k < Start(ChosenLists(cluster_ids, clusters), a + 1) <= |ChosenIds(cluster_ids, clusters)|
            && ChosenIds(cluster_ids, clusters)[k] == v
  {
    hide Members, Start, Rank, ChosenIds;
    RankIsPosition(cluster_ids, v, |cluster_ids|);
    PlaceInIds(cluster_ids, clusters, a, Rank(cluster_ids, v));
  }

  lemma SameCluster(clusters: seq<nat>, a: nat, b: nat)
    requires NoDuplicates(clusters) && a < |clusters| && b < |clusters| && clusters[a] == clusters[b]
    ensures a == b
  {
  }

  lemma NoRepeats(ids: seq<nat>)
    requires forall i, j :: 0 <= i < |ids| && 0 <= j < |ids| ==> (ids[i] == ids[j] ==> i == j)
    ensures NoDuplicates(ids)
  {
  }

  /** Distinct clusters have distinct vertices. */
  lemma ChosenOnce(cluster_ids: seq<nat>, clusters: seq<nat>)
    requires NoDuplicates(clusters)
    ensures NoDuplicates(ChosenIds(cluster_ids, clusters))
  {
    hide *;
    var ids := ChosenIds(cluster_ids, clusters);
    forall i, j | 0 <= i < |ids| && 0 <= j < |ids| ensures ids[i] == ids[j] ==> i == j {
      var a := IdAt(cluster_ids, clusters, i);
      var b := IdAt(cluster_ids, clusters, j);
      if ids[i] == ids[j] {
        SameCluster(clusters, a, b);
      }
    }
    NoRepeats(ids);
  }

  /** A vertex of the b-th chosen cluster has its local number in that cluster's range. */
  lemma LocalPlace(cluster_ids: seq<nat>, clusters: seq<nat>, m: map<nat, nat>, b: nat, u: nat)
    requires IsIdMap(ChosenIds(cluster_ids, clusters), m) && b < |clusters| && u < |cluster_ids|
             && cluster_ids[u] == clusters[b]
    ensures LocalOf(m, u) == Start(ChosenLists(cluster_ids, clusters), b) + Rank(cluster_ids, u)
    ensures LocalOf(m, u) < Start(ChosenLists(cluster_ids, clusters), b + 1) <= |ChosenIds(cluster_ids, clusters)|
    ensures ChosenIds(cluster_ids, clusters)[LocalOf(m, u)] == u
  {
    hide ChosenIds, ChosenLists, Start, Rank;
    VertexPlace(cluster_ids, clusters, b, u);
  }

  lemma RankOrder(cluster_ids: seq<nat>, u: nat, w: nat)
    requires u < w < |cluster_ids| && cluster_ids[u] == cluster_ids[w]
    ensures Rank(cluster_ids, u) < Rank(cluster_ids, w)
  {
    RankIsPosition(cluster_ids, u, w);
  }

  // ---------- The rows ----------

  lemma BlockMembers(g: Csr, cluster_ids: seq<nat>, v: nat, c: nat)
    requires g.Simple() && v < g.V() == |cluster_ids|
    ensures StrictlyIncreasing(RowBlock(g, cluster_ids, v, c))
    ensures forall u: nat :: u in RowBlock(g, cluster_ids, v, c) <==> u in g.N(v) && u < g.V() && cluster_ids[u] == c
  {
    FilterIncreasing(g.N(v), InCluster(cluster_ids, c));
    FilterMembers(g.N(v), InCluster(cluster_ids, c));
  }

  /** Renumbering one block. */
  lemma LocalBlock(g: Csr, cluster_ids: seq<nat>, clusters: seq<nat>, m: map<nat, nat>, v: nat, b: nat)
    requires g.Simple() && v < g.V() == |cluster_ids| && b < |clusters| && IsIdMap(ChosenIds(cluster_ids, clusters), m)
    ensures var r := Localised(m, RowBlock(g, cluster_ids, v, clusters[b]));
            && StrictlyIncreasing(r)
            && forall x :: x in r ==>
                 Start(ChosenLists(cluster_ids, clusters), b) <= x < Start(ChosenLists(cluster_ids, clusters), b + 1)
  {
    hide ChosenIds, ChosenLists, Start, Rank, IsIdMap, LocalOf, RowBlock;
    var block := RowBlock(g, cluster_ids, v, clusters[b]);
    BlockMembers(g, cluster_ids, v, clusters[b]);
    forall i | 0 <= i < |block|
      ensures block[i] < |cluster_ids| && cluster_ids[block[i]] == clusters[b]
      ensures LocalOf(m, block[i]) == Start(ChosenLists(cluster_ids, clusters), b) + Rank(cluster_ids, block[i])
      ensures LocalOf(m, block[i]) < Start(ChosenLists(cluster_ids, clusters), b + 1)
    {
      assert block[i] in block;
      LocalPlace(cluster_ids, clusters, m, b, block[i]);
    }
    forall i, j | 0 <= i < j < |block| ensures LocalOf(m, block[i]) < LocalOf(m, block[j]) {
      RankOrder(cluster_ids, block[i], block[j]);
    }
  }

  lemma IncreasingConcat(a: seq<nat>, b: seq<nat>, mid: nat)
    requires StrictlyIncreasing(a) && StrictlyIncreasing(b)
    requires (forall x :: x in a ==> x < mid) && forall x :: x in b ==> mid <= x
    ensures StrictlyIncreasing(a + b)
  {
    forall i, j | 0 <= i < j < |a + b| ensures (a + b)[i] < (a + b)[j] {
      if i < |a| <= j {
        assert a[i] in a && b[j - |a|] in b;
      }
    }
  }

  lemma NothingJoined(blocks: seq<seq<nat>>, m: map<nat, nat>)
    ensures Joined(blocks, 0) == [] && Localised(m, []) == [] && StrictlyIncreasing([])
  {
  }

  lemma JoinedBlock(g: Csr, cluster_ids: seq<nat>, clusters: seq<nat>, v: nat, b: nat)
    requires g.WellFormed() && v < g.V() && b < |clusters|
    ensures Joined(SubBlocks(g, cluster_ids, clusters, v), b + 1)
            == Joined(SubBlocks(g, cluster_ids, clusters, v), b) + RowBlock(g, cluster_ids, v, clusters[b])
  {
  }

  /** The blocks of one row, renumbered and joined, are in ascending order. */
  lemma {:induction false} LocalRowIncreasing(g: Csr, cluster_ids: seq<nat>, clusters: seq<nat>, m: map<nat, nat>,
                                              v: nat, b: nat)
    requires g.Simple() && v < g.V() == |cluster_ids| && b <= |clusters| && IsIdMap(ChosenIds(cluster_ids, clusters), m)
    ensures var r := Localised(m, Joined(SubBlocks(g, cluster_ids, clusters, v), b));
            && StrictlyIncreasing(r) && forall x :: x in r ==> x < Start(ChosenLists(cluster_ids, clusters), b)
    decreases b
  {
    hide *;
    SimpleIsWellFormed(g);
    var blocks, lists := SubBlocks(g, cluster_ids, clusters, v), ChosenLists(cluster_ids, clusters);
    if b == 0 {
      NothingJoined(blocks, m);
    } else {
      LocalRowIncreasing(g, cluster_ids, clusters, m, v, b - 1);
      LocalBlock(g, cluster_ids, clusters, m, v, b - 1);
      JoinedBlock(g, cluster_ids, clusters, v, b - 1);
      var front, block := Joined(blocks, b - 1), RowBlock(g, cluster_ids, v, clusters[b - 1]);
      LocalisedConcat(m, front, block);
      StartsOrdered(lists, b - 1, b);
      IncreasingConcat(Localised(m, front), Localised(m, block), Start(lists, b - 1));
      forall x | x in Localised(m, front + block) ensures x < Start(lists, b) {
      }
    }
  }

  /** The joined blocks hold the neighbours in chosen clusters. */
  lemma {:induction false} JoinedMembers(g: Csr, cluster_ids: seq<nat>, clusters: seq<nat>, v: nat, b: nat, u: nat)
    requires g.Simple() && v < g.V() == |cluster_ids| && b <= |clusters|
    ensures u in Joined(SubBlocks(g, cluster_ids, clusters, v), b) <==>
              u in g.N(v) && u < g.V() && cluster_ids[u] in clusters[..b]
    decreases b
  {
    hide *;
    SimpleIsWellFormed(g);
    if b == 0 {
      NothingJoined(SubBlocks(g, cluster_ids, clusters, v), map[]);
    } else {
      JoinedMembers(g, cluster_ids, clusters, v, b - 1, u);
      JoinedBlock(g, cluster_ids, clusters, v, b - 1);
      BlockMembers(g, cluster_ids, v, clusters[b - 1]);
      assert clusters[..b] == clusters[..b - 1] + [clusters[b - 1]];
    }
  }

  /** The row of a vertex in the subgraph. */
  ghost function SubRow(g: Csr, cluster_ids: seq<nat>, clusters: seq<nat>, m: map<nat, nat>, v: nat): seq<nat>
    requires g.WellFormed() && v < g.V()
  {
    Localised(m, Flat(SubBlocks(g, cluster_ids, clusters, v)))
  }

  lemma MappedBack(ids: seq<nat>, m: map<nat, nat>, d: nat)
    requires IsIdMap(ids, m) && d < |ids|
    ensures LocalOf(m, ids[d]) == d
  {
  }

  lemma SubRowUnfolds(g: Csr, cluster_ids: seq<nat>, clusters: seq<nat>, m: map<nat, nat>, v: nat)
    requires g.WellFormed() && v < g.V()
    ensures var row := Flat(SubBlocks(g, cluster_ids, clusters, v));
            && row == Joined(SubBlocks(g, cluster_ids, clusters, v), |clusters|)
            && SubRow(g, cluster_ids, clusters, m, v) == Localised(m, row)
               && |SubRow(g, cluster_ids, clusters, m, v)| == |row|
            && forall i :: 0 <= i < |row| ==> SubRow(g, cluster_ids, clusters, m, v)[i] == LocalOf(m, row[i])
  {
  }

  /** The row is in ascending order and names exactly the neighbours that were fetched. */
  lemma SubRowIs(g: Csr, cluster_ids: seq<nat>, clusters: seq<nat>, m: map<nat, nat>, v: nat)
    requires g.Simple() && v < g.V() == |cluster_ids| && IsIdMap(ChosenIds(cluster_ids, clusters), m)
             && NoDuplicates(clusters)
    ensures StrictlyIncreasing(SubRow(g, cluster_ids, clusters, m, v))
    ensures forall d: nat :: d in SubRow(g, cluster_ids, clusters, m, v) <==>
              d < |ChosenIds(cluster_ids, clusters)| && ChosenIds(cluster_ids, clusters)[d] in g.N(v)
  {
    hide *;
    SimpleIsWellFormed(g);
    RowBounds(g, v);
    var ids, row := ChosenIds(cluster_ids, clusters), Flat(SubBlocks(g, cluster_ids, clusters, v));
    LocalRowIncreasing(g, cluster_ids, clusters, m, v, |clusters|);
    SubRowUnfolds(g, cluster_ids, clusters, m, v);
    assert clusters[..|clusters|] == clusters;
    var sub := SubRow(g, cluster_ids, clusters, m, v);
    forall d: nat ensures d in sub <==> d < |ids| && ids[d] in g.N(v) {
      if d in sub {
        var i :| 0 <= i < |sub| && sub[i] == d;
        assert row[i] in row;
        JoinedMembers(g, cluster_ids, clusters, v, |clusters|, row[i]);
        var b :| 0 <= b < |clusters| && clusters[b] == cluster_ids[row[i]];
        LocalPlace(cluster_ids, clusters, m, b, row[i]);
      }
      if d < |ids| && ids[d] in g.N(v) {
        var a := IdAt(cluster_ids, clusters, d);
        JoinedMembers(g, cluster_ids, clusters, v, |clusters|, ids[d]);
        var i :| 0 <= i < |row| && row[i] == ids[d];
        MappedBack(ids, m, d);
        assert sub[i] == d;
      }
    }
  }

  /** All rows of the subgraph. */
  ghost function SubRows(g: Csr, cluster_ids: seq<nat>, clusters: seq<nat>, m: map<nat, nat>): (rows: seq<seq<nat>>)
    requires g.WellFormed() && g.V() == |cluster_ids|
    ensures |rows| == |ChosenIds(cluster_ids, clusters)|
  {
    var ids := ChosenIds(cluster_ids, clusters);
    seq(|ids|, s requires 0 <= s < |ids| => if ids[s] < g.V() then SubRow(g, cluster_ids, clusters, m, ids[s]) else [])
  }

  lemma SubRowsAt(g: Csr, cluster_ids: seq<nat>, clusters: seq<nat>, m: map<nat, nat>, s: nat)
    requires g.WellFormed() && g.V() == |cluster_ids| && s < |ChosenIds(cluster_ids, clusters)|
    ensures ChosenIds(cluster_ids, clusters)[s] < g.V()
    ensures SubRows(g, cluster_ids, clusters, m)[s] == SubRow(g, cluster_ids, clusters, m,
                                                              ChosenIds(cluster_ids, clusters)[s])
  {
    hide ChosenIds, SubRow;
    var a := IdAt(cluster_ids, clusters, s);
  }

  /** The rows at their offsets are the subgraph induced on the chosen clusters. */
  lemma SubRowsAreInduced(g: Csr, cluster_ids: seq<nat>, clusters: seq<nat>, m: map<nat, nat>, h: Csr)
    requires g.Simple() && g.V() == |cluster_ids| && NoDuplicates(clusters)
             && IsIdMap(ChosenIds(cluster_ids, clusters), m)
    requires Offsets(SubRows(g, cluster_ids, clusters, m), h.vertices)
    requires ListsFilled(SubRows(g, cluster_ids, clusters, m), h.vertices, h.edges, |ChosenIds(cluster_ids, clusters)|)
    requires |h.edges| == h.vertices[|ChosenIds(cluster_ids, clusters)|]
    ensures IsInduced(g, ChosenIds(cluster_ids, clusters), h)
  {
    hide ListsFilled, Offsets, SubRow, ChosenIds, IsIdMap, SubRows, StrictlyIncreasing;
    var ids := ChosenIds(cluster_ids, clusters);
    ChosenOnce(cluster_ids, clusters);
    ListsAreRows(SubRows(g, cluster_ids, clusters, m), h);
    forall s | 0 <= s < |ids|
      ensures ids[s] < g.V() && StrictlyIncreasing(h.N(s))
      ensures forall d: nat :: d in h.N(s) <==> d < |ids| && ids[d] in g.N(ids[s])
    {
      SubRowsAt(g, cluster_ids, clusters, m, s);
      SubRowIs(g, cluster_ids, clusters, m, ids[s]);
    }
  }
}
