/** The edge list of a graph, one task per kept edge (sansa/src/common/graph.cc:702-731). */
module EdgeList {
  import opened Counting
  import opened CsrGraph
  import opened EdgeFilter
  import opened Queues

  /** Which edges become tasks. */
  function Keeps(sym_break: bool, ascend: bool): (nat, nat) -> bool {
    (v: nat, u: nat) => if !sym_break then u != v else if ascend then v < u else u < v
  }

  /** The source of each kept edge. */
  ghost function SourceLists(lists: seq<seq<nat>>): seq<seq<nat>> {
    seq(|lists|, v requires 0 <= v < |lists| => Repeat(v, |lists[v]|))
  }

  /** The kept edges in row order. */
  ghost predicate IsEdgeList(g: Csr, keep: (nat, nat) -> bool, src: seq<nat>, dst: seq<nat>)
    requires g.WellFormed()
  {
    && src == Joined(SourceLists(FilteredLists(g, keep)), g.V())
    && dst == Joined(FilteredLists(g, keep), g.V())
  }

  // ---------- What the list holds ----------

  /** Task d comes before task e. */
  ghost predicate Before(src: seq<nat>, dst: seq<nat>, d: nat, e: nat)
    requires d < |src| == |dst| && e < |src|
  {
    src[d] < src[e] || (src[d] == src[e] && dst[d] < dst[e])
  }

  ghost predicate HasTask(src: seq<nat>, dst: seq<nat>, v: nat, u: nat) {
    |src| == |dst| && exists e :: 0 <= e < |src| && src[e] == v && dst[e] == u
  }

  ghost predicate ListsUpTo(g: Csr, keep: (nat, nat) -> bool, m: nat, src: seq<nat>, dst: seq<nat>)
    requires g.WellFormed()
  {
    && |src| == |dst| && m <= g.V()
    && (forall e :: 0 <= e < |src| ==> src[e] < m && dst[e] in g.N(src[e]) && keep(src[e], dst[e]))
    && (forall v, u :: 0 <= v < m && u in g.N(v) && keep(v, u) ==> HasTask(src, dst, v, u))
    && (forall d, e :: 0 <= d < e < |src| ==> Before(src, dst, d, e))
  }

  lemma JoinedNext(lists: seq<seq<nat>>, v: nat)
    requires v < |lists|
    ensures Joined(lists, v + 1) == Joined(lists, v) + lists[v]
    ensures Joined(SourceLists(lists), v + 1) == Joined(SourceLists(lists), v) + Repeat(v, |lists[v]|)
  {
  }

  lemma JoinedNothing(lists: seq<seq<nat>>)
    ensures Joined(lists, 0) == [] && Joined(SourceLists(lists), 0) == []
  {
  }

  lemma RowKept(g: Csr, keep: (nat, nat) -> bool, v: nat)
    requires g.Simple() && v < g.V()
    ensures |FilteredLists(g, keep)| == g.V()
    ensures StrictlyIncreasing(FilteredLists(g, keep)[v])
    ensures forall u :: u in FilteredLists(g, keep)[v] <==> u in g.N(v) && keep(v, u)
  {
    FilterIncreasing(g.N(v), KeepAt(keep, v));
    FilterMembers(g.N(v), KeepAt(keep, v));
  }

  lemma AppendedAt(m: nat, src: seq<nat>, dst: seq<nat>, row: seq<nat>, e: nat)
    requires |src| == |dst| && e < |src| + |row|
    ensures |src + Repeat(m, |row|)| == |dst + row| == |src| + |row|
    ensures e < |src| ==> (src + Repeat(m, |row|))[e] == src[e] && (dst + row)[e] == dst[e]
    ensures e >= |src| ==> (src + Repeat(m, |row|))[e] == m && (dst + row)[e] == row[e - |src|] && row[e - |src|] in row
  {
  }

  /** A row of m comes after the earlier rows. */
  lemma AppendedOrder(m: nat, src: seq<nat>, dst: seq<nat>, row: seq<nat>, d: nat, e: nat)
    requires |src| == |dst| && d < e < |src| + |row| && StrictlyIncreasing(row)
    requires forall e :: 0 <= e < |src| ==> src[e] < m
    requires e < |src| ==> Before(src, dst, d, e)
    ensures |src + Repeat(m, |row|)| == |dst + row| == |src| + |row|
    ensures Before(src + Repeat(m, |row|), dst + row, d, e)
  {
    hide Repeat;
    AppendedAt(m, src, dst, row, d);
    AppendedAt(m, src, dst, row, e);
  }

  lemma TaskAt(src: seq<nat>, dst: seq<nat>, e: nat)
    requires e < |src| == |dst|
    ensures HasTask(src, dst, src[e], dst[e])
  {
  }

  lemma AppendedTask(m: nat, src: seq<nat>, dst: seq<nat>, row: seq<nat>, v: nat, u: nat)
    requires |src| == |dst| && (HasTask(src, dst, v, u) || (v == m && u in row))
    ensures HasTask(src + Repeat(m, |row|), dst + row, v, u)
  {
    hide Repeat;
    var e: nat;
    if HasTask(src, dst, v, u) {
      e :| 0 <= e < |src| && src[e] == v && dst[e] == u;
    } else {
      var i :| 0 <= i < |row| && row[i] == u;
      e := |src| + i;
    }
    AppendedAt(m, src, dst, row, e);
    TaskAt(src + Repeat(m, |row|), dst + row, e);
  }

  lemma ListsParts(g: Csr, keep: (nat, nat) -> bool, m: nat, src: seq<nat>, dst: seq<nat>)
    requires g.WellFormed()
    ensures ListsUpTo(g, keep, m, src, dst) <==>
      && |src| == |dst| && m <= g.V()
      && (forall e :: 0 <= e < |src| ==> src[e] < m && dst[e] in g.N(src[e]) && keep(src[e], dst[e]))
      && (forall v, u :: 0 <= v < m && u in g.N(v) && keep(v, u) ==> HasTask(src, dst, v, u))
      && (forall d, e :: 0 <= d < e < |src| ==> Before(src, dst, d, e))
  {
  }

  lemma AppendedLength(m: nat, src: seq<nat>, dst: seq<nat>, row: seq<nat>)
    requires |src| == |dst|
    ensures |src + Repeat(m, |row|)| == |dst + row| == |src| + |row|
  {
  }

  lemma AppendRow(g: Csr, keep: (nat, nat) -> bool, m: nat, src: seq<nat>, dst: seq<nat>, row: seq<nat>)
    requires g.WellFormed() && ListsUpTo(g, keep, m, src, dst) && m < g.V() && StrictlyIncreasing(row)
    requires forall u :: u in row <==> u in g.N(m) && keep(m, u)
    ensures ListsUpTo(g, keep, m + 1, src + Repeat(m, |row|), dst + row)
  {
    hide Repeat, HasTask, Before, ListsUpTo, StrictlyIncreasing;
    ListsParts(g, keep, m, src, dst);
    var src', dst' := src + Repeat(m, |row|), dst + row;
    AppendedLength(m, src, dst, row);
    forall e | 0 <= e < |src'| ensures src'[e] < m + 1 && dst'[e] in g.N(src'[e]) && keep(src'[e], dst'[e]) {
      AppendedAt(m, src, dst, row, e);
    }
    forall v, u | 0 <= v < m + 1 && u in g.N(v) && keep(v, u) ensures HasTask(src', dst', v, u) {
      AppendedTask(m, src, dst, row, v, u);
    }
    forall d, e | 0 <= d < e < |src'| ensures Before(src', dst', d, e) {
      AppendedOrder(m, src, dst, row, d, e);
    }
    ListsParts(g, keep, m + 1, src', dst');
  }

  lemma NothingListed(g: Csr, keep: (nat, nat) -> bool)
    requires g.WellFormed()
    ensures ListsUpTo(g, keep, 0, [], [])
  {
  }

  lemma {:induction false} ListsRows(g: Csr, keep: (nat, nat) -> bool, m: nat)
    requires g.Simple() && m <= g.V()
    ensures ListsUpTo(g, keep, m, Joined(SourceLists(FilteredLists(g, keep)), m), Joined(FilteredLists(g, keep), m))
  {
    hide *;
    SimpleIsWellFormed(g);
    var lists := FilteredLists(g, keep);
    if m == 0 {
      JoinedNothing(lists);
      NothingListed(g, keep);
    } else {
      ListsRows(g, keep, m - 1);
      RowKept(g, keep, m - 1);
      JoinedNext(lists, m - 1);
      AppendRow(g, keep, m - 1, Joined(SourceLists(lists), m - 1), Joined(lists, m - 1), lists[m - 1]);
    }
  }

  /** Every kept edge is one task, and there are no others. */
  lemma EdgeListIsExact(g: Csr, keep: (nat, nat) -> bool, src: seq<nat>, dst: seq<nat>)
    requires g.Simple() && IsEdgeList(g, keep, src, dst)
    ensures |src| == |dst|
    ensures forall e :: 0 <= e < |src| ==> src[e] < g.V() && dst[e] in g.N(src[e]) && keep(src[e], dst[e])
    ensures forall v, u :: 0 <= v < g.V() && u in g.N(v) && keep(v, u) ==> HasTask(src, dst, v, u)
    ensures forall d, e :: 0 <= d < e < |src| ==> Before(src, dst, d, e)
  {
    ListsRows(g, keep, g.V());
  }

  // ---------- Half of the edges ----------

  ghost function Lower(adj: Adjacency): (nat, nat) -> bool {
    (v: nat, u: nat) => Adj(adj, v, u) && v < u
  }

  ghost function RowSize(lists: seq<seq<nat>>): nat -> int {
    (v: nat) => if v < |lists| then |lists[v]| else 0
  }

  lemma {:induction false} StartIsSum(lists: seq<seq<nat>>, m: nat)
    requires m <= |lists|
    ensures Start(lists, m) == Sum(Below(m), RowSize(lists))
  {
    if m > 0 {
      var last: nat := m - 1;
      StartIsSum(lists, last);
      SumRemove<nat>(Below(m), RowSize(lists), last);
      assert Below(m) - {last} == Below(last);
    }
  }

  lemma VertexRow(g: Csr, v: nat)
    requires g.Simple() && v < g.V()
    ensures g.WellFormed() && v + 1 < |g.vertices| && g.vertices[v] <= g.vertices[v + 1] <= |g.edges|
    ensures |FilteredLists(g, Keeps(true, true))| == |FilteredLists(g, Keeps(true, false))|
            == |FilteredLists(g, Keeps(false, true))| == g.V()
  {
  }

  lemma RowMembers(g: Csr, v: nat, u: nat)
    requires g.Simple() && v < g.V()
    ensures |g.Adjacency()| == g.V() && (u in g.N(v) <==> Adj(g.Adjacency(), v, u))
    ensures u in g.N(v) ==> u < g.V() && u != v
    ensures StrictlyIncreasing(g.N(v))
  {
    assert g.Adjacency()[v] == Elements(g.N(v));
  }

  lemma IncreasingCard(s: seq<nat>)
    requires StrictlyIncreasing(s)
    ensures |Elements(s)| == |s|
  {
    NoDuplicatesCard(s);
  }

  lemma KeepsIs(ascend: bool, v: nat, u: nat)
    ensures Keeps(true, ascend)(v, u) == if ascend then v < u else u < v
    ensures Keeps(false, ascend)(v, u) == (u != v)
  {
  }

  lemma LowerIs(adj: Adjacency, v: nat, u: nat)
    ensures Lower(adj)(v, u) <==> Adj(adj, v, u) && v < u
    ensures u in Related(v, Below(|adj|), Lower(adj)) <==> u < |adj| && Adj(adj, v, u) && v < u
    ensures u in CoRelated(v, Below(|adj|), Lower(adj)) <==> u < |adj| && Adj(adj, u, v) && u < v
  {
  }

  /** The neighbours above v. */
  lemma UpperRow(g: Csr, v: nat)
    requires g.Simple() && v < g.V()
    ensures |FilteredLists(g, Keeps(true, true))| == g.V() == |g.Adjacency()|
    ensures |FilteredLists(g, Keeps(true, true))[v]| == |Related(v, Below(g.V()), Lower(g.Adjacency()))|
  {
    hide *;
    VertexRow(g, v);
    var row, adj := FilteredLists(g, Keeps(true, true))[v], g.Adjacency();
    RowKept(g, Keeps(true, true), v);
    RowMembers(g, v, v);
    IncreasingCard(row);
    forall u: nat ensures u in Elements(row) <==> u in Related(v, Below(g.V()), Lower(adj)) {
      ElementsMember(row, u);
      KeepsIs(true, v, u);
      LowerIs(adj, v, u);
      RowMembers(g, v, u);
    }
    assert Elements(row) == Related(v, Below(g.V()), Lower(adj));
  }

  /** The neighbours below v. */
  lemma LowerRow(g: Csr, v: nat)
    requires g.Simple() && v < g.V() && Symmetric(g.Adjacency())
    ensures |FilteredLists(g, Keeps(true, false))| == g.V() == |g.Adjacency()|
    ensures |FilteredLists(g, Keeps(true, false))[v]| == |CoRelated(v, Below(g.V()), Lower(g.Adjacency()))|
  {
    hide *;
    VertexRow(g, v);
    var row, adj := FilteredLists(g, Keeps(true, false))[v], g.Adjacency();
    RowKept(g, Keeps(true, false), v);
    RowMembers(g, v, v);
    IncreasingCard(row);
    forall u: nat ensures u in Elements(row) <==> u in CoRelated(v, Below(g.V()), Lower(adj)) {
      ElementsMember(row, u);
      KeepsIs(false, v, u);
      LowerIs(adj, v, u);
      RowMembers(g, v, u);
      BothWays(adj, u, v);
      BothWays(adj, v, u);
    }
    assert Elements(row) == CoRelated(v, Below(g.V()), Lower(adj));
  }

  /** Every neighbour is above or below. */
  lemma BothRows(g: Csr, v: nat)
    requires g.Simple() && v < g.V()
    ensures |FilteredLists(g, Keeps(true, true))| == |FilteredLists(g, Keeps(true, false))| == g.V()
    ensures |FilteredLists(g, Keeps(true, true))[v]| + |FilteredLists(g, Keeps(true, false))[v]| == |g.N(v)|
  {
    hide *;
    VertexRow(g, v);
    var up, down := FilteredLists(g, Keeps(true, true)), FilteredLists(g, Keeps(true, false));
    RowKept(g, Keeps(true, true), v);
    RowKept(g, Keeps(true, false), v);
    RowMembers(g, v, v);
    IncreasingCard(up[v]);
    IncreasingCard(down[v]);
    IncreasingCard(g.N(v));
    forall u: nat ensures u in Elements(g.N(v)) <==> u in Elements(up[v]) + Elements(down[v]) {
      ElementsMember(up[v], u);
      ElementsMember(down[v], u);
      ElementsMember(g.N(v), u);
      KeepsIs(true, v, u);
      KeepsIs(false, v, u);
      RowMembers(g, v, u);
    }
    assert Elements(g.N(v)) == Elements(up[v]) + Elements(down[v]);
    forall u: nat ensures !(u in Elements(up[v]) && u in Elements(down[v])) {
      ElementsMember(up[v], u);
      ElementsMember(down[v], u);
      KeepsIs(true, v, u);
      KeepsIs(false, v, u);
    }
    assert Elements(up[v]) !! Elements(down[v]);
  }

  lemma RowEnds(g: Csr, v: nat)
    requires g.WellFormed() && v < g.V()
    ensures v + 1 < |g.vertices| && g.vertices[v] + |g.N(v)| == g.vertices[v + 1] <= |g.edges|
    ensures g.edges[..g.vertices[v + 1]] == g.edges[..g.vertices[v]] + g.N(v)
  {
  }

  lemma FirstRow(g: Csr)
    requires g.WellFormed()
    ensures |g.vertices| > 0 && g.vertices[0] == 0
  {
  }

  lemma StartNext(lists: seq<seq<nat>>, v: nat)
    requires v <= |lists|
    ensures Start(lists, 0) == 0 && (v > 0 ==> Start(lists, v) == Start(lists, v - 1) + |lists[v - 1]|)
  {
  }

  lemma ListSizes(g: Csr)
    requires g.WellFormed()
    ensures |FilteredLists(g, Keeps(true, true))| == |FilteredLists(g, Keeps(true, false))| == g.V()
    ensures g.vertices[g.V()] == |g.edges|
  {
  }

  lemma {:induction false} HalvesAddUp(g: Csr, m: nat)
    requires g.Simple() && m <= g.V()
    ensures Start(FilteredLists(g, Keeps(true, true)), m) + Start(FilteredLists(g, Keeps(true, false)), m)
            == g.vertices[m]
  {
    hide *;
    SimpleIsWellFormed(g);
    ListSizes(g);
    FirstRow(g);
    StartNext(FilteredLists(g, Keeps(true, true)), m);
    StartNext(FilteredLists(g, Keeps(true, false)), m);
    if m > 0 {
      BothRows(g, m - 1);
      RowEnds(g, m - 1);
      HalvesAddUp(g, m - 1);
    }
  }

  lemma RowSizeIs(g: Csr, v: nat)
    requires g.WellFormed() && v in Below(g.V())
    ensures v < g.V()
    ensures RowSize(FilteredLists(g, Keeps(true, true)))(v) == |FilteredLists(g, Keeps(true, true))[v]|
    ensures RowSize(FilteredLists(g, Keeps(true, false)))(v) == |FilteredLists(g, Keeps(true, false))[v]|
  {
  }

  /** The tasks are the edges, or with symmetry broken those to the larger end when ascending and to the smaller when
      not. */
  ghost predicate TasksAre(adj: Adjacency, sym_break: bool, ascend: bool, src: seq<nat>, dst: seq<nat>) {
    forall v: nat, u: nat :: HasTask(src, dst, v, u) <==>
      Adj(adj, v, u) && (sym_break ==> if ascend then v < u else u < v)
  }

  lemma AdjIsEntry(g: Csr, v: nat, u: nat)
    requires g.Simple()
    ensures Adj(g.Adjacency(), v, u) <==> v < g.V() && u in g.N(v)
    ensures Adj(g.Adjacency(), v, u) ==> u != v
  {
    if v < g.V() {
      RowMembers(g, v, u);
    }
  }

  lemma ListHoldsTasks(g: Csr, sym_break: bool, ascend: bool, src: seq<nat>, dst: seq<nat>)
    requires g.Simple() && IsEdgeList(g, Keeps(sym_break, ascend), src, dst)
    ensures TasksAre(g.Adjacency(), sym_break, ascend, src, dst)
  {
    hide IsEdgeList, Keeps, Adj, Csr.Simple, Before;
    SimpleIsWellFormed(g);
    EdgeListIsExact(g, Keeps(sym_break, ascend), src, dst);
    forall v: nat, u: nat
      ensures HasTask(src, dst, v, u) <==> Adj(g.Adjacency(), v, u) && (sym_break ==> if ascend then v < u else u < v)
    {
      KeepsIs(ascend, v, u);
      AdjIsEntry(g, v, u);
    }
  }

  /** Each direction has half of the directed edges. */
  lemma HalfOfTheEdges(g: Csr, ascend: bool)
    requires g.Simple() && Symmetric(g.Adjacency())
    ensures |Joined(FilteredLists(g, Keeps(true, ascend)), g.V())| == |g.edges| / 2
  {
    hide *;
    SimpleIsWellFormed(g);
    var up, down, adj := FilteredLists(g, Keeps(true, true)), FilteredLists(g, Keeps(true, false)), g.Adjacency();
    ListSizes(g);
    forall v: nat | v in Below(g.V())
      ensures RowSize(up)(v) == |Related(v, Below(g.V()), Lower(adj))|
              && RowSize(down)(v) == |CoRelated(v, Below(g.V()), Lower(adj))|
    {
      RowSizeIs(g, v);
      UpperRow(g, v);
      LowerRow(g, v);
    }
    DoubleCount(Below(g.V()), Below(g.V()), Lower(adj), RowSize(up), RowSize(down));
    StartIsSum(up, g.V());
    StartIsSum(down, g.V());
    HalvesAddUp(g, g.V());
    JoinedLength(up, g.V());
    JoinedLength(down, g.V());
  }

  /** Undirected edges come in pairs. */
  lemma EvenEdges(g: Csr)
    requires g.Simple() && Symmetric(g.Adjacency())
    ensures |g.edges| % 2 == 0
  {
    hide *;
    SimpleIsWellFormed(g);
    ListSizes(g);
    HalvesAddUp(g, g.V());
    HalfOfTheEdges(g, true);
    HalfOfTheEdges(g, false);
    JoinedLength(FilteredLists(g, Keeps(true, true)), g.V());
    JoinedLength(FilteredLists(g, Keeps(true, false)), g.V());
  }

  /** Without self-loops, all edges are kept in place. */
  lemma {:induction false} AllKept(row: seq<nat>, p: nat -> bool)
    requires forall u :: u in row ==> p(u)
    ensures Filter(row, p) == row
  {
    if row != [] {
      var front, last := row[..|row| - 1], row[|row| - 1];
      assert row == front + [last] && last in row;
      AllKept(front, p);
    }
  }

  lemma KeptAt(ascend: bool, v: nat, u: nat)
    ensures KeepAt(Keeps(false, ascend), v)(u) <==> u != v
  {
  }

  lemma FilteredRow(g: Csr, keep: (nat, nat) -> bool, v: nat)
    requires g.WellFormed() && v < g.V()
    ensures |FilteredLists(g, keep)| == g.V() && FilteredLists(g, keep)[v] == Filter(g.N(v), KeepAt(keep, v))
  {
  }

  lemma {:induction false} EdgesAreJoined(g: Csr, ascend: bool, m: nat)
    requires g.Simple() && m <= g.V()
    ensures Joined(FilteredLists(g, Keeps(false, ascend)), m) == g.edges[..g.vertices[m]]
  {
    hide *;
    SimpleIsWellFormed(g);
    var lists := FilteredLists(g, Keeps(false, ascend));
    FirstRow(g);
    if m == 0 {
      JoinedNothing(lists);
    } else {
      var v := m - 1;
      VertexRow(g, v);
      EdgesAreJoined(g, ascend, v);
      forall u | u in g.N(v) ensures KeepAt(Keeps(false, ascend), v)(u) {
        RowMembers(g, v, u);
        KeptAt(ascend, v, u);
      }
      AllKept(g.N(v), KeepAt(Keeps(false, ascend), v));
      RowEnds(g, v);
      FilteredRow(g, Keeps(false, ascend), v);
      JoinedNext(lists, v);
    }
  }
}
