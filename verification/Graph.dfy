/** The graph object and the operations that change it (sansa/src/common/graph.cc). */
module GraphObject {
  import opened Counting
  import opened CsrGraph
  import opened Cliques
  import opened Coloring
  import opened EdgeFilter
  import KCore

  lemma SliceOfPrefix(a: seq<nat>, b: seq<nat>, i: nat, j: nat)
    requires i <= j <= |b| <= |a| && a[..|b|] == b
    ensures a[i..j] == b[i..j]
  {
    assert a[..|b|][i..j] == a[i..j];
  }

  /** Row pointers below v have been shifted, the others not yet. */
  ghost predicate Shifted(g: Csr, lists: seq<seq<nat>>, vertices: seq<nat>, v: nat) {
    && |vertices| == |g.vertices|
    && (forall w :: 0 <= w < v && w < |vertices| ==> vertices[w] == Start(lists, w))
    && (forall w :: v <= w < |vertices| ==> vertices[w] == g.vertices[w])
  }

  lemma NothingShifted(g: Csr, lists: seq<seq<nat>>, vertices: seq<nat>, none: seq<nat>)
    requires g.WellFormed() && vertices == g.vertices && none == []
    ensures Shifted(g, lists, vertices, 0) && Start(lists, 0) == 0 && none == Joined(lists, 0)
    ensures |g.vertices| > 0 && g.vertices[0] == 0
  {
  }

  lemma ShiftOne(g: Csr, lists: seq<seq<nat>>, vertices: seq<nat>, v: nat, x: nat)
    requires Shifted(g, lists, vertices, v) && v + 1 < |vertices| && x == Start(lists, v)
    ensures |g.vertices| == |vertices|
    ensures Shifted(g, lists, vertices[v := x], v + 1)
  {
  }

  lemma ShiftedRest(g: Csr, lists: seq<seq<nat>>, vertices: seq<nat>, n: nat)
    requires Shifted(g, lists, vertices, n) && n < |vertices|
    ensures n < |g.vertices| && vertices[n] == g.vertices[n]
  {
  }

  lemma RowToShift(g: Csr, keep: (nat, nat) -> bool, vertices: seq<nat>, v: nat)
    requires g.WellFormed() && v + 1 < |g.vertices| && Shifted(g, FilteredLists(g, keep), vertices, v)
    ensures v + 1 < |vertices| == |g.vertices| && vertices[v] <= vertices[v + 1] <= |g.edges|
    ensures vertices[v] == g.vertices[v] && vertices[v + 1] == g.vertices[v + 1]
    ensures |g.N(v)| == g.vertices[v + 1] - g.vertices[v]
    ensures g.edges[vertices[v]..vertices[v + 1]] == g.N(v)
    ensures Start(FilteredLists(g, keep), v) + |Filter(g.N(v), KeepAt(keep, v))| == Start(FilteredLists(g, keep), v + 1)
    ensures Start(FilteredLists(g, keep), v) <= vertices[v]
    ensures Start(FilteredLists(g, keep), v + 1) <= vertices[v + 1]
    ensures Joined(FilteredLists(g, keep), v + 1) == Joined(FilteredLists(g, keep), v) + Filter(g.N(v), KeepAt(keep, v))
  {
    StartBelow(g, keep, v);
    StartBelow(g, keep, v + 1);
  }

  function SameColor(colors: seq<nat>): (nat, nat) -> bool {
    (src: nat, dst: nat) => src < |colors| && dst < |colors| && colors[src] == colors[dst]
  }

  /** The loop of the one-pass sparsifier: each row is read at its old place and its pointer moved to the new one. */
  method ShiftRows(ghost g: Csr, colors: seq<nat>, n: nat, vertices: array<nat>, edges: array<nat>,
                   newEdges: array<nat>)
    returns (count: nat, edgesRemoved: nat)
    requires g.WellFormed() && vertices[..] == g.vertices && vertices.Length == n + 1
    requires |g.edges| <= edges.Length && edges[..|g.edges|] == g.edges && newEdges.Length == |g.edges|
    requires vertices != edges && vertices != newEdges && edges != newEdges
    modifies vertices, newEdges
    ensures var lists := FilteredLists(g, SameColor(colors));
            && Shifted(g, lists, vertices[..], n) && vertices[n] == g.vertices[n]
            && count == Start(lists, n) <= newEdges.Length && newEdges[..count] == Joined(lists, n)
            && edgesRemoved + Start(lists, n) == g.vertices[n]
  {
    hide *;
    ghost var lists := FilteredLists(g, SameColor(colors));
    count, edgesRemoved := 0, 0;
    var lastOffset := 0;
    NothingShifted(g, lists, vertices[..], newEdges[..0]);
    for v := 0 to n
      invariant Shifted(g, lists, vertices[..], v)
      invariant count == Start(lists, v) <= newEdges.Length && newEdges[..count] == Joined(lists, v)
      invariant v < |g.vertices| && lastOffset == edgesRemoved && edgesRemoved + Start(lists, v) == g.vertices[v]
      invariant edges[..|g.edges|] == g.edges
    {
      RowToShift(g, SameColor(colors), vertices[..], v);
      ghost var before := vertices[..];
      var row := edges[vertices[v]..vertices[v + 1]];
      SliceOfPrefix(edges[..], g.edges, vertices[v], vertices[v + 1]);
      assert row == edges[..][vertices[v]..vertices[v + 1]];
      count, edgesRemoved := KeepRow(row, SameColor(colors), v, newEdges, count, edgesRemoved);
      assert vertices[..] == before;
      vertices[v] := vertices[v] - lastOffset;
      assert vertices[..] == before[v := before[v] - lastOffset];
      ShiftOne(g, lists, before, v, before[v] - lastOffset);
      lastOffset := edgesRemoved;
    }
    ShiftedRest(g, lists, vertices[..], n);
  }

  lemma KeptIsSparsified(g: Csr, colors: seq<nat>, h: Csr)
    requires g.Simple() && h.Simple() && IsFiltered(g, SameColor(colors), h) && |colors| == g.V()
    ensures h.Adjacency() == Sparsified(g.Adjacency(), colors)
  {
    FilteredSimple(g, SameColor(colors), h);
    forall v | 0 <= v < g.V() ensures h.Adjacency()[v] == Sparsified(g.Adjacency(), colors)[v] {
    }
  }

  /** The last pointer shifted too, the graph is the sparsified one. */
  lemma AllShifted(g: Csr, colors: seq<nat>, h: Csr, vertices: seq<nat>, n: nat)
    requires g.Simple() && |colors| == g.V() == n && Shifted(g, FilteredLists(g, SameColor(colors)), vertices, n)
    requires h.vertices == vertices[n := Start(FilteredLists(g, SameColor(colors)), n)]
    requires h.edges == Joined(FilteredLists(g, SameColor(colors)), n)
    ensures h.Simple() && h.V() == n && IsFiltered(g, SameColor(colors), h)
    ensures h.Adjacency() == Sparsified(g.Adjacency(), colors)
  {
    JoinedIsFiltered(g, SameColor(colors), h);
    FilteredSimple(g, SameColor(colors), h);
    KeptIsSparsified(g, colors, h);
  }

  /** md is the largest degree. */
  ghost predicate IsMaxDegree(g: Csr, md: nat) {
    && |g.vertices| > 0
    && (forall v :: 0 <= v < g.V() ==> g.Degree(v) <= md)
    && exists v :: 0 <= v < g.V() && g.Degree(v) == md
  }

  lemma LargestDegree(degrees: seq<nat>, h: Csr, md: nat)
    requires |h.vertices| > 0 && |degrees| == h.V() && forall v :: 0 <= v < h.V() ==> degrees[v] == h.Degree(v)
    requires md in degrees && forall x :: x in degrees ==> x <= md
    ensures IsMaxDegree(h, md)
  {
    var v :| 0 <= v < |degrees| && degrees[v] == md;
    assert h.Degree(v) == md;
    forall w | 0 <= w < h.V() ensures h.Degree(w) <= md {
      assert degrees[w] in degrees;
    }
  }

  lemma NewDegrees(g: Csr, keep: (nat, nat) -> bool, degrees: seq<nat>, h: Csr)
    requires g.WellFormed() && IsFiltered(g, keep, h) && FilteredDegrees(g, keep, degrees, g.V())
    ensures |h.vertices| > 0 && h.V() == g.V()
    ensures |degrees| == h.V() && forall v :: 0 <= v < h.V() ==> degrees[v] == h.Degree(v)
  {
    forall v | 0 <= v < h.V() ensures degrees[v] == h.Degree(v) {
      assert h.Degree(v) == |h.N(v)|;
    }
  }

  method DegreesOf(g: Csr) returns (degrees: seq<nat>)
    requires g.WellFormed()
    ensures |degrees| == g.V() && forall v :: 0 <= v < g.V() ==> degrees[v] == g.Degree(v)
  {
    degrees := [];
    for v := 0 to g.V()
      invariant |degrees| == v && forall w :: 0 <= w < v ==> degrees[w] == g.Degree(w)
    {
      degrees := degrees + [g.Degree(v)];
    }
  }

  method MaxElement(s: seq<nat>) returns (m: nat)
    requires s != []
    ensures m in s && forall x :: x in s ==> x <= m
  {
    m := s[0];
    for i := 1 to |s|
      invariant m in s && forall k :: 0 <= k < i ==> s[k] <= m
    {
      if s[i] > m {
        m := s[i];
      }
    }
  }

  lemma KeptIsOriented(g: Csr, keep: (nat, nat) -> bool, degrees: seq<nat>, h: Csr)
    requires g.Simple() && h.Simple() && IsFiltered(g, keep, h)
    requires |degrees| == g.V() && forall v :: 0 <= v < g.V() ==> degrees[v] == g.Degree(v)
    requires forall src, dst :: keep(src, dst) == Precedes(degrees, src, dst)
    ensures h.Adjacency() == Oriented(g.Adjacency())
  {
    FilteredSimple(g, keep, h);
    var adj := g.Adjacency();
    assert degrees == Degrees(adj) by {
      forall v | 0 <= v < g.V() ensures degrees[v] == |adj[v]| {
        NoDuplicatesCard(g.N(v));
      }
    }
    forall v | 0 <= v < g.V() ensures h.Adjacency()[v] == Oriented(adj)[v] {
    }
  }

  /** The oriented graph and its largest degree. */
  method OrientedCsr(g: Csr, blockSize: nat) returns (h: Csr, md: nat)
    requires g.Simple() && g.V() > 0 && blockSize > 0
    ensures h.Simple() && h.V() == g.V() && h.Adjacency() == Oriented(g.Adjacency())
    ensures IsMaxDegree(h, md)
  {
    hide *;
    SimpleIsWellFormed(g);
    var degrees := DegreesOf(g);
    var keep := (src: nat, dst: nat) => Precedes(degrees, src, dst);
    var newDegrees;
    h, newDegrees := FilterEdges(g, keep, blockSize);
    FilteredSimple(g, keep, h);
    KeptIsOriented(g, keep, degrees, h);
    NewDegrees(g, keep, newDegrees, h);
    md := MaxElement(newDegrees);
    LargestDegree(newDegrees, h, md);
  }

  lemma RowIsNeighbours(g: Csr, v: nat)
    requires g.Simple() && v < g.V()
    ensures v + 1 < |g.vertices| && |g.Adjacency()| == g.V()
    ensures g.vertices[v] + |g.Adjacency()[v]| == g.vertices[v + 1]
    ensures g.Degree(v) == Degree(g.Adjacency())(v) == |g.Adjacency()[v]|
  {
    NoDuplicatesCard(g.N(v));
  }

  lemma FirstPointer(g: Csr)
    requires g.Simple()
    ensures |g.vertices| > 0 && g.vertices[0] == 0 && g.vertices[g.V()] == |g.edges| && g.V() == |g.vertices| - 1
    ensures |g.Adjacency()| == g.V()
  {
  }

  lemma BelowStep(m: nat)
    ensures m in Below(m + 1) && Below(m + 1) - {m} == Below(m) && Below(0) == {}
  {
  }

  /** The degrees of the first m vertices add up to the row pointer of m. */
  lemma {:induction false} DegreesAddUp(g: Csr, m: nat)
    requires g.Simple() && m < |g.vertices|
    ensures Sum(Below(m), Degree(g.Adjacency())) == g.vertices[m]
  {
    hide *;
    FirstPointer(g);
    if m == 0 {
      BelowStep(0);
      SumConstant<nat>({}, Degree(g.Adjacency()), 0);
    } else {
      var last: nat := m - 1;
      DegreesAddUp(g, last);
      BelowStep(last);
      SumRemove<nat>(Below(m), Degree(g.Adjacency()), last);
      RowIsNeighbours(g, last);
    }
  }

  /** The lists together are as long as the degrees say. */
  lemma AllDegrees(g: Csr)
    requires g.Simple()
    ensures |g.vertices| > 0 && |g.Adjacency()| == g.V()
    ensures Sum(Below(g.V()), Degree(g.Adjacency())) == |g.edges|
  {
    hide *;
    FirstPointer(g);
    DegreesAddUp(g, g.V());
  }

  /** What the orientation is for: no vertex keeps more successors than the square root of the number of edges, and each
      undirected edge is kept once. */
  lemma OrientedSizes(g: Csr, h: Csr, md: nat)
    requires g.Simple() && h.Simple() && h.V() == g.V() && Loopless(g.Adjacency())
    requires h.Adjacency() == Oriented(g.Adjacency()) && IsMaxDegree(h, md)
    ensures md * md <= |g.edges|
    ensures Undirected(g.Adjacency()) ==> 2 * |h.edges| == |g.edges|
  {
    AllDegrees(g);
    AllDegrees(h);
    var v :| 0 <= v < h.V() && h.Degree(v) == md;
    RowIsNeighbours(h, v);
    hide *;
    SuccessorsSquared(g.Adjacency(), v);
    if Undirected(g.Adjacency()) {
      HalfIsKept(g.Adjacency());
    }
  }

  /** Each edge is there once, from its end with fewer neighbours; between equals, from the smaller vertex. */
  ghost predicate FromFewerNeighbors(adj: Adjacency, kept: Adjacency) {
    && |kept| == |adj|
    && forall u: nat, v: nat :: Adj(kept, u, v) <==>
         Adj(adj, u, v) && v < |adj| && (|adj[u]| < |adj[v]| || (|adj[u]| == |adj[v]| && u < v))
  }

  lemma AllFromFewer(adj: Adjacency)
    requires Loopless(adj)
    ensures FromFewerNeighbors(adj, Oriented(adj))
  {
    hide Oriented;
    forall u: nat, v: nat
      ensures Adj(Oriented(adj), u, v) <==>
                Adj(adj, u, v) && v < |adj| && (|adj[u]| < |adj[v]| || (|adj[u]| == |adj[v]| && u < v))
    {
      KeptDirection(adj, u, v);
    }
  }

  class Graph {
    var n_vertices: nat
    var n_edges: nat
    var max_degree: nat
    var vertices: array<nat>
    var edges: array<nat>
    var core_table: array<nat>

    /** The graph stored: row pointers, and as much of the edge buffer as is in use. */
    ghost function Value(): Csr
      requires n_edges <= edges.Length
      reads this, vertices, edges
    {
      Csr(vertices[..], edges[..n_edges])
    }

    ghost predicate Valid()
      reads this, vertices, edges
    {
      && vertices != edges && core_table != vertices && core_table != edges
      && n_edges <= edges.Length
      && vertices.Length == n_vertices + 1
      && Value().Simple()
    }

    constructor (g: Csr, md: nat)
      requires g.Simple()
      ensures Valid() && Value() == g && max_degree == md
      ensures fresh(vertices) && fresh(edges) && fresh(core_table) && core_table.Length == g.V()
    {
      n_vertices := g.V();
      n_edges := |g.edges|;
      max_degree := md;
      vertices := new nat[|g.vertices|](i requires 0 <= i < |g.vertices| => g.vertices[i]);
      edges := new nat[|g.edges|](i requires 0 <= i < |g.edges| => g.edges[i]);
      core_table := new nat[g.V()];
      new;
      assert vertices[..] == g.vertices;
      assert edges[..n_edges] == g.edges;
    }

    lemma ValidParts()
      requires Valid()
      ensures vertices != edges && core_table != vertices && core_table != edges
      ensures n_edges <= edges.Length && vertices.Length == n_vertices + 1
      ensures Value().vertices == vertices[..] && Value().edges == edges[..n_edges] && Value().Simple()
      ensures |Value().vertices| > 0 && Value().V() == n_vertices
    {
    }

    lemma ValuePart()
      requires n_edges <= edges.Length
      ensures Value() == Csr(vertices[..], edges[..n_edges])
      ensures (vertices != edges && core_table != vertices && core_table != edges
               && vertices.Length == n_vertices + 1 && Value().Simple()) ==> Valid()
    {
    }

    /** The core number of every vertex, by bucket-sorted peeling. */
    method ComputeKCore()
      requires Valid() && Undirected(Value().Adjacency()) && core_table.Length == n_vertices
      requires forall v :: 0 <= v < n_vertices ==> Value().Degree(v) <= max_degree
      modifies core_table
      ensures Valid() && Value() == old(Value())
      ensures forall v :: 0 <= v < n_vertices ==> KCore.IsCoreNumber(Value().Adjacency(), v, core_table[v])
    {
      var g := Csr(vertices[..], edges[..n_edges]);
      KCore.ComputeCores(g, max_degree, core_table);
      assert Value() == g;
    }

    /** The acyclic orientation: each edge from its end of smaller degree, ties by id. */
    method Orientation(blockSize: nat)
      requires Valid() && n_vertices > 0 && blockSize > 0
      modifies this
      ensures Valid() && n_vertices == old(n_vertices)
      ensures Value().Adjacency() == Oriented(old(Value().Adjacency()))
      ensures FromFewerNeighbors(old(Value().Adjacency()), Value().Adjacency())
      ensures IsMaxDegree(Value(), max_degree) && max_degree * max_degree <= old(n_edges)
      ensures Undirected(old(Value().Adjacency())) ==> 2 * n_edges == old(n_edges)
      ensures fresh(vertices) && fresh(edges)
    {
      var g := Csr(vertices[..], edges[..n_edges]);
      var h, md := OrientedCsr(g, blockSize);
      max_degree := md;
      Replace(h);
      AllFromFewer(g.Adjacency());
      OrientedSizes(g, h, md);
    }

    /** The buffers give way to those of h. */
    method Replace(h: Csr)
      requires h.Simple()
      modifies this
      ensures Valid() && Value() == h && fresh(vertices) && fresh(edges)
      ensures n_vertices == h.V() && max_degree == old(max_degree)
    {
      n_vertices := h.V();
      n_edges := |h.edges|;
      vertices := new nat[|h.vertices|](i requires 0 <= i < |h.vertices| => h.vertices[i]);
      edges := new nat[|h.edges|](i requires 0 <= i < |h.edges| => h.edges[i]);
      assert vertices[..] == h.vertices;
      assert edges[..n_edges] == h.edges;
    }

    /** Colour sparsification, count-scan-fill; colors is the random colouring. */
    method ColorSparsifyFast(colors: seq<nat>, blockSize: nat)
      requires Valid() && Loopless(Value().Adjacency()) && |colors| == n_vertices && blockSize > 0
      modifies this
      ensures Valid() && IsFiltered(old(Value()), SameColor(colors), Value())
      ensures Value().Adjacency() == Sparsified(old(Value().Adjacency()), colors)
    {
      var g := Csr(vertices[..], edges[..n_edges]);
      var h, degrees := FilterEdges(g, SameColor(colors), blockSize);
      FilteredSimple(g, SameColor(colors), h);
      KeptIsSparsified(g, colors, h);
      Replace(h);
    }

    /** Colour sparsification in one pass, shifting the row pointers while they are still being read. */
    method ColorSparsify(colors: seq<nat>)
      requires Valid() && Loopless(Value().Adjacency()) && |colors| == n_vertices
      modifies this, vertices
      ensures Valid() && IsFiltered(old(Value()), SameColor(colors), Value())
      ensures Value().Adjacency() == Sparsified(old(Value().Adjacency()), colors)
    {
      hide *;
      ValidParts();
      ghost var g := Value();
      SimpleIsWellFormed(g);
      var newEdges := new nat[n_edges];
      var count, edgesRemoved := ShiftRows(g, colors, n_vertices, vertices, edges, newEdges);
      ghost var shifted := vertices[..];
      vertices[n_vertices] := vertices[n_vertices] - edgesRemoved;
      n_edges := count;
      edges := newEdges;
      assert vertices[..] == shifted[n_vertices := vertices[n_vertices]];
      ValuePart();
      AllShifted(g, colors, Value(), shifted, n_vertices);
    }
  }

  /** For one colouring, both ways of sparsifying give the same row pointers and edges. */
  lemma SparsifiersAgree(g: Csr, colors: seq<nat>, fast: Csr, onePass: Csr)
    requires g.WellFormed() && IsFiltered(g, SameColor(colors), fast) && IsFiltered(g, SameColor(colors), onePass)
    ensures fast == onePass
  {
    FilteredUnique(g, SameColor(colors), fast, onePass);
  }
}
