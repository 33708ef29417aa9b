/** Building the edge list of a graph (sansa/src/common/graph.cc:697-731). */
module TaskGraph {
  import opened Counting
  import opened CsrGraph
  import opened EdgeFilter
  import opened Queues
  import opened EdgeList
  import opened Scheduling

  // ---------- Tasks of one vertex ----------

  lemma HeldNothing(q: nat)
    ensures Held([], q) == 0
  {
  }

  /** A vertex is the source of its kept edges. */
  lemma {:induction false} HeldOfSources(lists: seq<seq<nat>>, m: nat, v: nat)
    requires m <= |lists| && v < |lists|
    ensures Held(Joined(SourceLists(lists), m), v) == if v < m then |lists[v]| else 0
    decreases m
  {
    hide *;
    if m == 0 {
      JoinedNothing(lists);
      HeldNothing(v);
    } else {
      HeldOfSources(lists, m - 1, v);
      JoinedNext(lists, m - 1);
      HeldChunk(Joined(SourceLists(lists), m - 1), m - 1, |lists[m - 1]|, v);
    }
  }

  /** The vector after resize(n): new entries are zero. */
  function SizeAt(sizes: seq<nat>, v: nat): nat {
    if v < |sizes| then sizes[v] else 0
  }

  /** sizes[v] is the number of tasks of v. */
  ghost predicate SizesMatch(sizes: seq<nat>, src_list: seq<nat>, nv: nat) {
    |sizes| == nv && forall v :: 0 <= v < nv ==> sizes[v] == Held(src_list, v)
  }

  function ResizedSizes(sizes: seq<nat>, n: nat): (r: seq<nat>)
    ensures |r| == n && forall v :: 0 <= v < n ==> r[v] == SizeAt(sizes, v)
  {
    Resized(sizes, n)
  }

  lemma ListsLength(g: Csr, keep: (nat, nat) -> bool)
    requires g.WellFormed()
    ensures |FilteredLists(g, keep)| == g.V()
  {
  }

  lemma WholeList(g: Csr, ascend: bool)
    requires g.Simple()
    ensures g.WellFormed() && Joined(FilteredLists(g, Keeps(false, ascend)), g.V()) == g.edges
  {
    EdgesAreJoined(g, ascend, g.V());
    assert g.edges[..g.vertices[g.V()]] == g.edges;
  }

  lemma RowSpan(g: Csr, v: nat)
    requires g.Simple() && v < g.V()
    ensures v + 1 < |g.vertices| && g.vertices[v] <= g.vertices[v + 1] <= |g.edges|
    ensures StrictlyIncreasing(g.N(v)) && forall u :: u in g.N(v) ==> u != v
  {
  }

  lemma RepeatLength(x: nat, k: nat)
    ensures |Repeat(x, k)| == k && forall i :: 0 <= i < k ==> Repeat(x, k)[i] == x
  {
  }

  /** A prefix of the rows is no longer than all of them. */
  lemma {:induction false} PrefixFits(lists: seq<seq<nat>>, v: nat)
    requires v <= |lists|
    ensures |Joined(lists, v)| <= |Joined(lists, |lists|)|
    decreases |lists| - v
  {
    if v < |lists| {
      hide Joined;
      JoinedNext(lists, v);
      PrefixFits(lists, v + 1);
    }
  }

  lemma KeepAtIs(sym_break: bool, ascend: bool, v: nat, u: nat)
    ensures KeepAt(Keeps(sym_break, ascend), v)(u) <==> if !sym_break then u != v else if ascend then v < u else u < v
  {
  }

  /** Once greater neighbours are reached in descending mode, the rest are greater. */
  lemma {:induction false} RestDropped(row: seq<nat>, p: nat -> bool, e: nat)
    requires e <= |row| && forall i :: e <= i < |row| ==> !p(row[i])
    ensures Filter(row, p) == Filter(row[..e], p)
    decreases |row|
  {
    if e < |row| {
      RestDropped(row[..|row| - 1], p, e);
      assert row[..|row| - 1][..e] == row[..e];
    } else {
      assert row[..e] == row;
    }
  }

  lemma IncreasingFrom(row: seq<nat>, e: nat, v: nat)
    requires StrictlyIncreasing(row) && e < |row| && v < row[e]
    ensures forall i :: e <= i < |row| ==> v < row[i]
  {
  }

  /** In descending order, no neighbour from a greater one on is kept. */
  lemma NoneLeft(row: seq<nat>, v: nat, e: nat)
    requires StrictlyIncreasing(row) && e < |row| && v < row[e]
    ensures Filter(row, KeepAt(Keeps(true, false), v)) == Filter(row[..e], KeepAt(Keeps(true, false), v))
  {
    IncreasingFrom(row, e, v);
    forall i | e <= i < |row| ensures !KeepAt(Keeps(true, false), v)(row[i]) {
      KeepAtIs(true, false, v, row[i]);
    }
    RestDropped(row, KeepAt(Keeps(true, false), v), e);
  }

  /** One more task of v, after `count` of them. */
  method PutTask(src_list: array<nat>, dst_list: array<nat>, begin: nat, count: nat, v: nat, u: nat, sym_break: bool,
                 ghost srcs: seq<nat>, ghost dsts: seq<nat>, ghost kept: seq<nat>)
    requires src_list != dst_list && begin + count < src_list.Length
    requires sym_break ==> begin + count < dst_list.Length && dst_list[..begin + count] == dsts + kept
    requires src_list[..begin + count] == srcs + Repeat(v, count)
    modifies src_list, dst_list
    ensures src_list[..begin + count + 1] == srcs + Repeat(v, count + 1)
    ensures sym_break ==> dst_list[..begin + count + 1] == dsts + (kept + [u])
    ensures !sym_break ==> dst_list[..] == old(dst_list[..])
  {
    RepeatNext(v, count + 1);
    hide *;
    src_list[begin + count] := v;
    if sym_break {
      dst_list[begin + count] := u;
      assert dst_list[..begin + count + 1] == old(dst_list[..begin + count]) + [u];
    }
    assert src_list[..begin + count + 1] == old(src_list[..begin + count]) + [v];
  }

  /** The tasks of one vertex. */
  method RowTasks(row: seq<nat>, v: nat, sym_break: bool, ascend: bool, src_list: array<nat>, dst_list: array<nat>,
                  begin: nat)
    returns (count: nat)
    requires StrictlyIncreasing(row) && src_list != dst_list
    requires begin + |Filter(row, KeepAt(Keeps(sym_break, ascend), v))| <= src_list.Length
    requires sym_break ==> dst_list.Length == src_list.Length
    modifies src_list, dst_list
    ensures count == |Filter(row, KeepAt(Keeps(sym_break, ascend), v))|
    ensures src_list[..begin + count] == old(src_list[..begin]) + Repeat(v, count)
    ensures sym_break ==>
              dst_list[..begin + count] == old(dst_list[..begin]) + Filter(row, KeepAt(Keeps(sym_break, ascend), v))
    ensures !sym_break ==> dst_list[..] == old(dst_list[..])
  {
    hide *;
    ghost var p := KeepAt(Keeps(sym_break, ascend), v);
    ghost var srcs, dsts := src_list[..begin], if sym_break then dst_list[..begin] else [];
    count := 0;
    FilterNone(row, p);
    RepeatLength(v, 0);
    var e := 0;
    var stopped := false;
    while e < |row| && !stopped
      invariant e <= |row| && count == |Filter(row[..e], p)| && begin + count <= src_list.Length
      invariant src_list[..begin + count] == srcs + Repeat(v, count)
      invariant sym_break ==> dst_list[..begin + count] == dsts + Filter(row[..e], p)
      invariant !sym_break ==> dst_list[..] == old(dst_list[..])
      invariant stopped ==> Filter(row, p) == Filter(row[..e], p)
      decreases |row| - e, !stopped
    {
      var u := row[e];
      FilterStep(row, p, e);
      FilterPrefix(row, p, e + 1);
      KeepAtIs(sym_break, ascend, v, u);
      if u == v || (sym_break && ascend && v > u) {
        e := e + 1;
      } else if sym_break && !ascend && v < u {
        NoneLeft(row, v, e);
        stopped := true;
      } else {
        PutTask(src_list, dst_list, begin, count, v, u, sym_break, srcs, dsts, Filter(row[..e], p));
        count := count + 1;
        e := e + 1;
      }
    }
    if e == |row| {
      assert row[..e] == row;
    }
  }

  lemma FinishList(g: Csr, keep: (nat, nat) -> bool, src: seq<nat>, dst: seq<nat>, before: seq<nat>, sizes: seq<nat>)
    requires g.WellFormed() && |FilteredLists(g, keep)| == g.V()
    requires src == Joined(SourceLists(FilteredLists(g, keep)), g.V()) && dst == Joined(FilteredLists(g, keep), g.V())
    requires |before| == |sizes| == g.V()
    requires forall w :: 0 <= w < g.V() ==> sizes[w] == before[w] + |FilteredLists(g, keep)[w]|
    ensures IsEdgeList(g, keep, src, dst)
    ensures forall v :: 0 <= v < g.V() ==> sizes[v] == before[v] + Held(src, v)
  {
    hide Held, FilteredLists, Joined, SourceLists;
    forall v | 0 <= v < g.V() ensures sizes[v] == before[v] + Held(src, v) {
      HeldOfSources(FilteredLists(g, keep), g.V(), v);
    }
  }

  /** Writes the tasks of all vertices, and counts them. */
  method FillTasks(g: Csr, sym_break: bool, ascend: bool, src_list: array<nat>, dst_list: array<nat>, sizes: seq<nat>)
    returns (sizes': seq<nat>)
    requires g.Simple() && |sizes| == g.V() && src_list != dst_list
    requires |FilteredLists(g, Keeps(sym_break, ascend))| == g.V()
    requires src_list.Length == dst_list.Length == |Joined(FilteredLists(g, Keeps(sym_break, ascend)), g.V())|
    requires !sym_break ==> dst_list[..] == Joined(FilteredLists(g, Keeps(sym_break, ascend)), g.V())
    modifies src_list, dst_list
    ensures IsEdgeList(g, Keeps(sym_break, ascend), src_list[..], dst_list[..])
    ensures |sizes'| == g.V() && forall v :: 0 <= v < g.V() ==> sizes'[v] == sizes[v] + Held(src_list[..], v)
  {
    hide *;
    SimpleIsWellFormed(g);
    VertexCount(g);
    ghost var keep := Keeps(sym_break, ascend);
    ghost var lists := FilteredLists(g, keep);
    sizes' := sizes;
    var i := 0;
    JoinedNothing(lists);
    var nv := |g.vertices| - 1;
    for v := 0 to nv
      invariant i == |Joined(lists, v)| == |Joined(SourceLists(lists), v)| <= src_list.Length
      invariant src_list[..i] == Joined(SourceLists(lists), v)
      invariant sym_break ==> dst_list[..i] == Joined(lists, v)
      invariant !sym_break ==> dst_list[..] == old(dst_list[..])
      invariant |sizes'| == nv && forall w :: 0 <= w < nv ==> sizes'[w] == sizes[w] + if w < v then |lists[w]| else 0
    {
      JoinedNext(lists, v);
      PrefixFits(lists, v + 1);
      RepeatLength(v, |lists[v]|);
      FilteredRow(g, keep, v);
      RowSpan(g, v);
      var count := RowTasks(g.N(v), v, sym_break, ascend, src_list, dst_list, i);
      sizes' := sizes'[v := sizes'[v] + count];
      i := i + count;
    }
    FinishList(g, keep, src_list[..], dst_list[..], sizes, sizes');
  }

  class TaskGraph {
    const g: Csr
    var nnz: nat
    var src_list: array<nat>
    var dst_list: array<nat>
    var sizes: seq<nat>

    constructor (graph: Csr)
      ensures g == graph && nnz == 0 && sizes == []
    {
      g := graph;
      nnz, sizes := 0, [];
      src_list, dst_list := new nat[0], new nat[0];
    }

    /** Fills the edge list, unless it is already there. The counts are added to what `sizes` held. */
    method InitEdgelist(sym_break: bool, ascend: bool) returns (r: nat)
      requires g.Simple() && (sym_break ==> Symmetric(g.Adjacency()))
      modifies this
      ensures r == nnz
      ensures old(nnz) != 0 ==> unchanged(this)
      ensures old(nnz) == 0 ==>
                && nnz == (if sym_break then |g.edges| / 2 else |g.edges|)
                && src_list.Length == dst_list.Length == nnz
                && IsEdgeList(g, Keeps(sym_break, ascend), src_list[..], dst_list[..])
                && TasksAre(g.Adjacency(), sym_break, ascend, src_list[..], dst_list[..])
                && |sizes| == g.V()
                && forall v :: 0 <= v < g.V() ==> sizes[v] == SizeAt(old(sizes), v) + Held(src_list[..], v)
    {
      hide *;
      if nnz != 0 {
        return nnz;
      }
      SimpleIsWellFormed(g);
      ListsLength(g, Keeps(sym_break, ascend));
      nnz := |g.edges|;
      if sym_break {
        nnz := nnz / 2;
        HalfOfTheEdges(g, ascend);
      } else {
        WholeList(g, ascend);
      }
      VertexCount(g);
      sizes := ResizedSizes(sizes, |g.vertices| - 1);
      src_list := new nat[nnz];
      var dst: array<nat>;
      if sym_break {
        dst := new nat[nnz];
      } else {
        dst := new nat[|g.edges|](e requires 0 <= e < |g.edges| => g.edges[e]);
        assert dst[..] == g.edges;
      }
      dst_list := dst;
      sizes := FillTasks(g, sym_break, ascend, src_list, dst_list, sizes);
      ListHoldsTasks(g, sym_break, ascend, src_list[..], dst_list[..]);
      r := nnz;
    }

    method ReinitEdgelist(sym_break: bool, ascend: bool) returns (r: nat)
      requires g.Simple() && (sym_break ==> Symmetric(g.Adjacency()))
      modifies this
      ensures r == nnz == (if sym_break then |g.edges| / 2 else |g.edges|)
      ensures src_list.Length == dst_list.Length == nnz
      ensures IsEdgeList(g, Keeps(sym_break, ascend), src_list[..], dst_list[..])
      ensures TasksAre(g.Adjacency(), sym_break, ascend, src_list[..], dst_list[..])
      ensures |sizes| == g.V()
      ensures forall v :: 0 <= v < g.V() ==> sizes[v] == SizeAt(old(sizes), v) + Held(src_list[..], v)
    {
      nnz := 0;
      r := InitEdgelist(sym_break, ascend);
    }
  }
}
