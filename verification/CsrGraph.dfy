/** Graphs in compressed sparse row form: row pointers and sorted neighbour lists
    (sansa/include/graph.h). */
module CsrGraph {
  import opened Counting

  predicate StrictlyIncreasing(s: seq<nat>) {
    forall i, j :: 0 <= i < j < |s| ==> s[i] < s[j]
  }

  lemma AppendIncreasing(s: seq<nat>, x: nat)
    requires StrictlyIncreasing(s) && forall y :: y in s ==> y < x
    ensures StrictlyIncreasing(s + [x])
  {
    forall i, j | 0 <= i < j < |s| + 1 ensures (s + [x])[i] < (s + [x])[j] {
      if j == |s| {
        assert s[i] in s;
      }
    }
  }

  lemma {:induction false} FilterIncreasing(s: seq<nat>, p: nat -> bool)
    requires StrictlyIncreasing(s)
    ensures StrictlyIncreasing(Filter(s, p))
  {
    if s != [] {
      var front, last := s[..|s| - 1], s[|s| - 1];
      FilterIncreasing(front, p);
      FilterMembers(front, p);
      if p(last) {
        AppendIncreasing(Filter(front, p), last);
      }
    }
  }

  lemma FrontMembers(s: seq<nat>, x: nat)
    requires StrictlyIncreasing(s) && s != []
    ensures x in s[..|s| - 1] <==> x in s && x != s[|s| - 1]
  {
    assert s == s[..|s| - 1] + [s[|s| - 1]];
  }

  lemma FrontIncreasing(s: seq<nat>)
    requires StrictlyIncreasing(s) && s != []
    ensures StrictlyIncreasing(s[..|s| - 1]) && s[|s| - 1] !in s[..|s| - 1]
  {
  }

  lemma LastIsLargest(s: seq<nat>, x: nat)
    requires StrictlyIncreasing(s) && x in s
    ensures x <= s[|s| - 1]
  {
  }

  lemma EmptyTogether(a: seq<nat>, b: seq<nat>)
    requires forall x :: x in a <==> x in b
    ensures a == [] <==> b == []
  {
    if a != [] {
      assert a[0] in b;
    }
    if b != [] {
      assert b[0] in a;
    }
  }

  /** A strictly increasing list is determined by its elements. */
  lemma {:induction false} SameElementsSameList(a: seq<nat>, b: seq<nat>)
    requires StrictlyIncreasing(a) && StrictlyIncreasing(b) && forall x :: x in a <==> x in b
    ensures a == b
  {
    hide *;
    EmptyTogether(a, b);
    if a != [] {
      var m, n := |a| - 1, |b| - 1;
      assert a[m] in b && b[n] in a;
      LastIsLargest(a, b[n]);
      LastIsLargest(b, a[m]);
      FrontIncreasing(a);
      FrontIncreasing(b);
      forall x ensures x in a[..m] <==> x in b[..n] {
        FrontMembers(a, x);
        FrontMembers(b, x);
      }
      SameElementsSameList(a[..m], b[..n]);
      assert a == a[..m] + [a[m]] && b == b[..n] + [b[n]];
    }
  }

  /** What the algorithms mean is stated on the neighbour sets alone. */
  type Adjacency = seq<set<nat>>

  /** `vertices` holds the row pointers, `edges` the column indices. */
  datatype Csr = Csr(vertices: seq<nat>, edges: seq<nat>) {

    /** The row pointers are monotone and cover the column indices. */
    ghost predicate WellFormed() {
      && |vertices| > 0
      && vertices[0] == 0
      && vertices[|vertices| - 1] == |edges|
      && forall i, j :: 0 <= i <= j < |vertices| ==> vertices[i] <= vertices[j]
    }

    function V(): nat
      requires |vertices| > 0
    {
      |vertices| - 1
    }

    function Degree(v: nat): (d: int)
      requires v + 1 < |vertices|
    {
      vertices[v + 1] as int - vertices[v] as int
    }

    /** The neighbour list of v. */
    function N(v: nat): seq<nat>
      requires v + 1 < |vertices|
      requires vertices[v] <= vertices[v + 1] <= |edges|
    {
      edges[vertices[v]..vertices[v + 1]]
    }

    /** Every neighbour list is strictly increasing, in range and free of self-loops. */
    ghost predicate Simple() {
      && WellFormed()
      && (forall v :: 0 <= v < V() ==> StrictlyIncreasing(N(v)))
      && (forall v, u :: 0 <= v < V() && u in N(v) ==> u < V() && u != v)
    }

    /** The neighbour lists, vertex by vertex. */
    ghost function Rows(): (rows: seq<seq<nat>>)
      ensures WellFormed() ==> |rows| == V() && forall v :: 0 <= v < V() ==> rows[v] == N(v)
    {
      if WellFormed() then seq(V(), v requires 0 <= v < V() => N(v)) else []
    }

    /** The graph as a set of neighbours per vertex. */
    ghost function Adjacency(): (adj: Adjacency)
      ensures WellFormed() ==> |adj| == V() && forall v :: 0 <= v < V() ==> adj[v] == Elements(N(v))
    {
      if WellFormed() then seq(V(), v requires 0 <= v < V() => Elements(N(v))) else []
    }
  }

  lemma SimpleIsWellFormed(g: Csr)
    requires g.Simple()
    ensures g.WellFormed()
  {
  }

  lemma VertexCount(g: Csr)
    requires g.WellFormed()
    ensures |g.vertices| > 0 && |g.vertices| - 1 == g.V()
  {
  }

  lemma RowBounds(g: Csr, v: nat)
    requires g.WellFormed() && v < g.V()
    ensures v + 1 < |g.vertices| && g.vertices[v] <= g.vertices[v + 1] <= |g.edges|
  {
  }

  /** All neighbours are vertices, none its own. */
  ghost predicate Loopless(adj: Adjacency) {
    forall u, v :: 0 <= u < |adj| && v in adj[u] ==> v < |adj| && v != u
  }

  /** Every edge is present in both directions. */
  ghost predicate Symmetric(adj: Adjacency) {
    forall u, v :: 0 <= u < |adj| && v in adj[u] ==> v < |adj| && u in adj[v]
  }

  ghost predicate Undirected(adj: Adjacency) {
    Loopless(adj) && Symmetric(adj)
  }

  predicate Adj(adj: Adjacency, u: nat, v: nat) {
    u < |adj| && v in adj[u]
  }

  lemma BothWays(adj: Adjacency, u: nat, v: nat)
    requires Symmetric(adj)
    ensures Adj(adj, u, v) ==> v < |adj| && Adj(adj, v, u)
  {
  }
}
