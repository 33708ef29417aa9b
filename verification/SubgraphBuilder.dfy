/** Building the subgraph induced by masked vertices
    (sansa/src/common/graph_partition.cc:24-79). */
module SubgraphBuilder {
  import opened Counting
  import opened CsrGraph
  import opened Scan
  import opened EdgeFilter
  import opened Induced

  /** Neighbours in the mask are kept. */
  function Masked(v_masks: seq<nat>): (nat, nat) -> bool {
    (v: nat, u: nat) => u < |v_masks| && v_masks[u] != 0
  }

  /** ids lists the masked vertices in ascending order. */
  ghost predicate ListsMask(v_masks: seq<nat>, ids: seq<nat>) {
    StrictlyIncreasing(ids) && forall v: nat :: v in ids <==> v < |v_masks| && v_masks[v] != 0
  }

  /** new_ids gives each listed vertex its position. */
  ghost predicate Renumbers(ids: seq<nat>, new_ids: seq<nat>) {
    forall k :: 0 <= k < |ids| ==> ids[k] < |new_ids| && new_ids[ids[k]] == k
  }

  function NewId(new_ids: seq<nat>, u: nat): nat {
    if u < |new_ids| then new_ids[u] else 0
  }

  ghost function Renumbered(new_ids: seq<nat>, row: seq<nat>): (r: seq<nat>)
    ensures |r| == |row|
  {
    seq(|row|, i requires 0 <= i < |row| => NewId(new_ids, row[i]))
  }

  /** The neighbour list of the k-th listed vertex. */
  ghost function LocalRow(g: Csr, v_masks: seq<nat>, ids: seq<nat>, new_ids: seq<nat>, k: nat): seq<nat>
    requires g.WellFormed() && k < |ids| && ids[k] < g.V()
  {
    Renumbered(new_ids, Filter(g.N(ids[k]), KeepAt(Masked(v_masks), ids[k])))
  }

  ghost predicate ListedInRange(g: Csr, ids: seq<nat>) {
    g.WellFormed() && forall k :: 0 <= k < |ids| ==> ids[k] < g.V()
  }

  ghost function LocalRows(g: Csr, v_masks: seq<nat>, ids: seq<nat>, new_ids: seq<nat>): (rows: seq<seq<nat>>)
    requires ListedInRange(g, ids)
    ensures |rows| == |ids|
  {
    seq(|ids|, k requires 0 <= k < |ids| => LocalRow(g, v_masks, ids, new_ids, k))
  }

  lemma MaskAt(v_masks: seq<nat>, ids: seq<nat>, k: nat)
    requires ListsMask(v_masks, ids) && k < |ids|
    ensures ids[k] < |v_masks| && v_masks[ids[k]] != 0
  {
    assert ids[k] in ids;
  }

  lemma PlaceOf(v_masks: seq<nat>, ids: seq<nat>, new_ids: seq<nat>, u: nat)
    requires ListsMask(v_masks, ids) && Renumbers(ids, new_ids) && u < |v_masks| && v_masks[u] != 0
    ensures NewId(new_ids, u) < |ids| && ids[NewId(new_ids, u)] == u
  {
    assert u in ids;
    var k :| 0 <= k < |ids| && ids[k] == u;
  }

  lemma OrderBack(v_masks: seq<nat>, ids: seq<nat>, a: nat, b: nat)
    requires ListsMask(v_masks, ids) && a < |ids| && b < |ids|
    ensures ids[a] < ids[b] <==> a < b
  {
  }

  lemma KeptNamed(g: Csr, v_masks: seq<nat>, ids: seq<nat>, new_ids: seq<nat>, k: nat, kept: seq<nat>)
    requires g.WellFormed() && |v_masks| == g.V() && ListsMask(v_masks, ids) && Renumbers(ids, new_ids)
    requires k < |ids| && ids[k] < g.V() && StrictlyIncreasing(kept)
    requires forall u: nat :: u in kept <==> u in g.N(ids[k]) && KeepAt(Masked(v_masks), ids[k])(u)
    ensures StrictlyIncreasing(Renumbered(new_ids, kept))
    ensures forall d: nat :: d in Renumbered(new_ids, kept) <==> d < |ids| && ids[d] in g.N(ids[k])
  {
    hide ListsMask, Renumbers, NewId;
    var r := Renumbered(new_ids, kept);
    forall i | 0 <= i < |kept| ensures r[i] < |ids| && ids[r[i]] == kept[i] && kept[i] in g.N(ids[k]) {
      assert kept[i] in kept;
      PlaceOf(v_masks, ids, new_ids, kept[i]);
    }
    forall i, j | 0 <= i < j < |kept| ensures r[i] < r[j] {
      OrderBack(v_masks, ids, r[i], r[j]);
    }
    forall d: nat | d < |ids| && ids[d] in g.N(ids[k]) ensures d in r {
      MaskAt(v_masks, ids, d);
      assert ids[d] in kept;
      var i :| 0 <= i < |kept| && kept[i] == ids[d];
      OrderBack(v_masks, ids, d, r[i]);
      OrderBack(v_masks, ids, r[i], d);
      assert r[i] == d;
    }
  }

  /** Renumbering keeps order and names exactly the kept neighbours. */
  lemma LocalRowIs(g: Csr, v_masks: seq<nat>, ids: seq<nat>, new_ids: seq<nat>, k: nat)
    requires g.Simple() && |v_masks| == g.V() && ListsMask(v_masks, ids) && Renumbers(ids, new_ids)
    requires k < |ids| && ids[k] < g.V()
    ensures StrictlyIncreasing(LocalRow(g, v_masks, ids, new_ids, k))
    ensures forall d: nat :: d in LocalRow(g, v_masks, ids, new_ids, k) <==> d < |ids| && ids[d] in g.N(ids[k])
  {
    var kept := Filter(g.N(ids[k]), KeepAt(Masked(v_masks), ids[k]));
    FilterIncreasing(g.N(ids[k]), KeepAt(Masked(v_masks), ids[k]));
    FilterMembers(g.N(ids[k]), KeepAt(Masked(v_masks), ids[k]));
    KeptNamed(g, v_masks, ids, new_ids, k, kept);
  }

  /** The rows at their offsets are the induced subgraph. */
  lemma RowsAreInduced(g: Csr, v_masks: seq<nat>, ids: seq<nat>, new_ids: seq<nat>, h: Csr)
    requires g.Simple() && |v_masks| == g.V() && ListsMask(v_masks, ids) && Renumbers(ids, new_ids)
             && ListedInRange(g, ids)
    requires Offsets(LocalRows(g, v_masks, ids, new_ids), h.vertices)
    requires ListsFilled(LocalRows(g, v_masks, ids, new_ids), h.vertices, h.edges, |ids|)
             && |h.edges| == h.vertices[|ids|]
    ensures IsInduced(g, ids, h)
  {
    hide ListsFilled, Offsets, LocalRow;
    ListsAreRows(LocalRows(g, v_masks, ids, new_ids), h);
    forall s | 0 <= s < |ids|
      ensures StrictlyIncreasing(h.N(s)) && forall d: nat :: d in h.N(s) <==> d < |ids| && ids[d] in g.N(ids[s])
    {
      LocalRowIs(g, v_masks, ids, new_ids, s);
    }
  }

  // ---------- The program ----------

  /** Writes one row, renumbered. */
  method FillLocal(row: seq<nat>, v_masks: seq<nat>, new_ids: seq<nat>, ghost v: nat, edges: array<nat>, begin: nat)
    requires begin + |Filter(row, KeepAt(Masked(v_masks), v))| <= edges.Length
    requires |v_masks| == |new_ids| && forall u :: u in row ==> u < |v_masks|
    modifies edges
    ensures edges[begin..begin + |Filter(row, KeepAt(Masked(v_masks), v))|]
            == Renumbered(new_ids, Filter(row, KeepAt(Masked(v_masks), v)))
    ensures forall i :: 0 <= i < edges.Length && !(begin <= i < begin + |Filter(row, KeepAt(Masked(v_masks), v))|) ==>
              edges[i] == old(edges[i])
  {
    hide Filter;
    ghost var p := KeepAt(Masked(v_masks), v);
    var j: nat := 0;
    FilterNone(row, p);
    for e := 0 to |row|
      invariant j == |Filter(row[..e], p)| && begin + j <= edges.Length
      invariant edges[begin..begin + j] == Renumbered(new_ids, Filter(row[..e], p))
      invariant forall i :: 0 <= i < edges.Length && !(begin <= i < begin + j) ==> edges[i] == old(edges[i])
    {
      FilterStep(row, p, e);
      FilterPrefix(row, p, e + 1);
      var u := row[e];
      assert u in row;
      if v_masks[u] != 0 {
        ghost var before := edges[begin..begin + j];
        edges[begin + j] := new_ids[u];
        j := j + 1;
        assert edges[begin..begin + j] == before + [new_ids[u]];
      }
    }
    assert row[..|row|] == row;
  }

  method ReindexVertices(ids: seq<nat>, nv: nat) returns (new_ids: seq<nat>)
    requires NoDuplicates(ids) && forall k :: 0 <= k < |ids| ==> ids[k] < nv
    ensures |new_ids| == nv && Renumbers(ids, new_ids)
  {
    var a := new nat[nv](i => 0);
    for i := 0 to |ids|
      invariant forall k :: 0 <= k < i ==> a[ids[k]] == k
    {
      a[ids[i]] := i;
    }
    new_ids := a[..];
  }

  method CountMasked(g: Csr, v_masks: seq<nat>, ids: seq<nat>, ghost new_ids: seq<nat>) returns (degrees: seq<nat>)
    requires ListedInRange(g, ids)
    ensures |degrees| == |ids| && forall k :: 0 <= k < |ids| ==> degrees[k] == |LocalRow(g, v_masks, ids, new_ids, k)|
  {
    degrees := [];
    for i := 0 to |ids|
      invariant |degrees| == i && forall k :: 0 <= k < i ==> degrees[k] == |LocalRow(g, v_masks, ids, new_ids, k)|
    {
      var n := CountKept(g.N(ids[i]), Masked(v_masks), ids[i]);
      degrees := degrees + [n];
    }
  }

  lemma ScannedRows(g: Csr, v_masks: seq<nat>, ids: seq<nat>, new_ids: seq<nat>, degrees: seq<nat>, offsets: seq<nat>)
    requires ListedInRange(g, ids) && |degrees| == |ids| && IsPrefixSum(degrees, offsets)
    requires forall k :: 0 <= k < |ids| ==> degrees[k] == |LocalRow(g, v_masks, ids, new_ids, k)|
    ensures Offsets(LocalRows(g, v_masks, ids, new_ids), offsets) && |offsets| == |ids| + 1
  {
    hide LocalRow;
    var rows := LocalRows(g, v_masks, ids, new_ids);
    forall v | 0 <= v < |rows| ensures offsets[v] + |rows[v]| == offsets[v + 1] {
      assert SumRange(degrees, 0, v + 1) == SumRange(degrees, 0, v) + degrees[v];
    }
  }

  lemma RowAt(g: Csr, v_masks: seq<nat>, ids: seq<nat>, new_ids: seq<nat>, offsets: seq<nat>, k: nat)
    requires g.Simple() && ListedInRange(g, ids) && k < |ids| && |v_masks| == g.V()
    requires Offsets(LocalRows(g, v_masks, ids, new_ids), offsets) && |offsets| == |ids| + 1
    ensures ids[k] + 1 < |g.vertices| && g.vertices[ids[k]] <= g.vertices[ids[k] + 1] <= |g.edges|
    ensures forall u :: u in g.N(ids[k]) ==> u < |v_masks|
    ensures LocalRows(g, v_masks, ids, new_ids)[k] == LocalRow(g, v_masks, ids, new_ids, k)
            == Renumbered(new_ids, Filter(g.N(ids[k]), KeepAt(Masked(v_masks), ids[k])))
    ensures offsets[k] + |LocalRow(g, v_masks, ids, new_ids, k)| == offsets[k + 1] <= offsets[|ids|]
  {
    OffsetsOrdered(LocalRows(g, v_masks, ids, new_ids), offsets, k + 1, |ids|);
  }

  method FillLocalRows(g: Csr, v_masks: seq<nat>, ids: seq<nat>, new_ids: seq<nat>, offsets: seq<nat>)
    returns (edges: array<nat>)
    requires g.Simple() && ListedInRange(g, ids) && |v_masks| == |new_ids| == g.V()
    requires Offsets(LocalRows(g, v_masks, ids, new_ids), offsets) && |offsets| == |ids| + 1
    ensures edges.Length == offsets[|ids|]
    ensures ListsFilled(LocalRows(g, v_masks, ids, new_ids), offsets, edges[..], |ids|)
  {
    hide *;
    ghost var rows := LocalRows(g, v_masks, ids, new_ids);
    edges := new nat[offsets[|ids|]];
    NoLists(rows, offsets, edges[..]);
    for v := 0 to |ids|
      invariant ListsFilled(rows, offsets, edges[..], v)
    {
      RowAt(g, v_masks, ids, new_ids, offsets, v);
      ghost var before := edges[..];
      FillLocal(g.N(ids[v]), v_masks, new_ids, ids[v], edges, offsets[v]);
      assert edges[..][offsets[v]..offsets[v] + |rows[v]|] == edges[offsets[v]..offsets[v] + |rows[v]|];
      PutList(rows[v], offsets[v], edges[..]);
      OneMoreList(rows, offsets, before, edges[..], v);
    }
  }

  /** The local ids of the first and after the last vertex of the chunk, if they are listed. */
  ghost predicate IsLocalRange(ids: seq<nat>, begin: nat, end: nat, lb0: nat, le0: nat, lb: nat, le: nat) {
    && (if begin in ids then lb < |ids| && ids[lb] == begin else lb == lb0)
    && (if end > 0 && end - 1 in ids then 0 < le <= |ids| && ids[le - 1] == end - 1 else le == le0)
  }

  method FindLocalRange(ids: seq<nat>, begin: nat, end: nat, lb0: nat, le0: nat) returns (lb: nat, le: nat)
    requires NoDuplicates(ids)
    ensures IsLocalRange(ids, begin, end, lb0, le0, lb, le)
  {
    lb, le := lb0, le0;
    for i := 0 to |ids|
      invariant if begin in ids[..i] then lb < i && ids[lb] == begin else lb == lb0
      invariant if end > 0 && end - 1 in ids[..i] then 0 < le <= i && ids[le - 1] == end - 1 else le == le0
    {
      if ids[i] == begin {
        lb := i;
      }
      if ids[i] + 1 == end {
        le := i + 1;
      }
    }
    assert ids[..|ids|] == ids;
  }

  lemma MaskIds(g: Csr, v_masks: seq<nat>, ids: seq<nat>)
    requires g.Simple() && |v_masks| == g.V() && ListsMask(v_masks, ids)
    ensures NoDuplicates(ids) && |g.vertices| > 0 && |g.vertices| - 1 == g.V()
    ensures ListedInRange(g, ids) && forall k :: 0 <= k < |ids| ==> ids[k] < |g.vertices| - 1
  {
    forall k | 0 <= k < |ids| ensures ids[k] < g.V() {
      MaskAt(v_masks, ids, k);
    }
  }

  /** Reindex, count, scan, fill. */
  method GenerateInducedSubgraph(g: Csr, v_masks: seq<nat>, ids: seq<nat>, begin: nat, end: nat, lb0: nat, le0: nat,
                                 blockSize: nat)
    returns (subg: Csr, lb: nat, le: nat)
    requires g.Simple() && |v_masks| == g.V() && ListsMask(v_masks, ids) && blockSize > 0
    ensures IsInduced(g, ids, subg)
    ensures IsLocalRange(ids, begin, end, lb0, le0, lb, le)
  {
    hide *;
    MaskIds(g, v_masks, ids);
    var new_ids := ReindexVertices(ids, |g.vertices| - 1);
    lb, le := FindLocalRange(ids, begin, end, lb0, le0);
    var degrees := CountMasked(g, v_masks, ids, new_ids);
    var offsets := ParallelPrefixSum(degrees, blockSize);
    ScannedRows(g, v_masks, ids, new_ids, degrees, offsets);
    var edges := FillLocalRows(g, v_masks, ids, new_ids, offsets);
    subg := Csr(offsets, edges[..]);
    RowsAreInduced(g, v_masks, ids, new_ids, subg);
  }
}
