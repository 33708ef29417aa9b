/** Cliques, the acyclic orientation by degree, and why each k-clique of the graph
    is one chain of its orientation (sansa/src/common/graph.cc:633-679). */
module Cliques {
  import opened Counting
  import opened CsrGraph

  ghost predicate IsClique(adj: Adjacency, s: set<nat>) {
    forall u, v :: u in s && v in s && u != v ==> Adj(adj, u, v)
  }

  /** The cliques of k vertices. */
  ghost function CliquesOf(adj: Adjacency, k: nat): set<set<nat>> {
    set s | s in Subsets(Below(|adj|)) && |s| == k && IsClique(adj, s)
  }

  /** Each vertex of e has an edge to every later one. */
  ghost predicate IsChain(adj: Adjacency, e: seq<nat>) {
    forall i, j :: 0 <= i < j < |e| ==> Adj(adj, e[i], e[j])
  }

  /** The chains of k vertices. */
  ghost function ChainsOf(adj: Adjacency, k: nat): set<seq<nat>> {
    set e | e in Seqs(Below(|adj|), k) && IsChain(adj, e)
  }

  lemma ChainsMember(adj: Adjacency, k: nat, e: seq<nat>)
    ensures e in ChainsOf(adj, k) <==>
              |e| == k && (forall i :: 0 <= i < k ==> e[i] < |adj|) && IsChain(adj, e)
  {
    SeqsMembers(Below(|adj|), k);
    if |e| == k && forall i :: 0 <= i < k ==> e[i] < |adj| {
      assert forall i :: 0 <= i < k ==> e[i] in Below(|adj|);
    }
    if e in Seqs(Below(|adj|), k) {
      assert forall i :: 0 <= i < k ==> e[i] in Below(|adj|);
    }
  }

  /** One more vertex: a common successor. */
  lemma ChainAppend(adj: Adjacency, e: seq<nat>, d: nat)
    requires IsChain(adj, e)
    ensures IsChain(adj, e + [d]) <==> forall i :: 0 <= i < |e| ==> Adj(adj, e[i], d)
  {
    var f := e + [d];
    if IsChain(adj, f) {
      forall i | 0 <= i < |e| ensures Adj(adj, e[i], d) {
        assert Adj(adj, f[i], f[|e|]);
      }
    }
    if forall i :: 0 <= i < |e| ==> Adj(adj, e[i], d) {
      forall i, j | 0 <= i < j < |f| ensures Adj(adj, f[i], f[j]) {
        if j < |e| { assert Adj(adj, e[i], e[j]); }
      }
    }
  }

  /** The front of a chain is a chain. */
  lemma ChainFront(adj: Adjacency, k: nat, x: seq<nat>)
    requires x in ChainsOf(adj, k + 1)
    ensures |x| == k + 1 && x == x[..k] + [x[k]] && x[..k] in ChainsOf(adj, k)
  {
    ChainsMember(adj, k + 1, x);
    ChainsMember(adj, k, x[..k]);
    forall i, j | 0 <= i < j < k ensures Adj(adj, x[..k][i], x[..k][j]) {
      assert Adj(adj, x[i], x[j]);
    }
  }

  // ---------- On the undirected graph every ordering of a clique is a chain ----------

  lemma ChainIsOrdering(adj: Adjacency, k: nat, e: seq<nat>)
    requires Undirected(adj) && e in ChainsOf(adj, k)
    ensures Elements(e) in CliquesOf(adj, k) && e in Orderings(Elements(e))
  {
    ChainsMember(adj, k, e);
    assert NoDuplicates(e) by {
      forall i, j | 0 <= i < j < |e| ensures e[i] != e[j] {
        assert Adj(adj, e[i], e[j]);
      }
    }
    NoDuplicatesCard(e);
    OrderingsMember(Elements(e), e);
    forall u, v | u in Elements(e) && v in Elements(e) && u != v ensures Adj(adj, u, v) {
      var i :| 0 <= i < |e| && e[i] == u;
      var j :| 0 <= j < |e| && e[j] == v;
      if i > j {
        assert Adj(adj, e[j], e[i]);
      }
    }
    assert Elements(e) <= Below(|adj|);
  }

  lemma OrderingIsChain(adj: Adjacency, k: nat, s: set<nat>, e: seq<nat>)
    requires s in CliquesOf(adj, k) && e in Orderings(s)
    ensures e in ChainsOf(adj, k) && Elements(e) == s
  {
    OrderingsMember(s, e);
    NoDuplicatesCard(e);
    assert forall i :: 0 <= i < |e| ==> e[i] in Elements(e);
    assert forall x :: x in s ==> x in Below(|adj|);
    ChainsMember(adj, k, e);
  }

  ghost function SetOf(): seq<nat> -> set<nat> {
    (e: seq<nat>) => Elements(e)
  }

  lemma SetOfIsElements(e: seq<nat>)
    ensures SetOf()(e) == Elements(e)
  {
  }

  lemma CliqueFibre(adj: Adjacency, k: nat, s: set<nat>)
    requires Undirected(adj) && s in CliquesOf(adj, k)
    ensures |Fibre(ChainsOf(adj, k), SetOf(), s)| == Factorial(k)
  {
    var fibre := Fibre(ChainsOf(adj, k), SetOf(), s);
    assert |s| == k;
    hide ChainsOf, CliquesOf, Undirected, Orderings, Factorial;
    forall e | e in fibre ensures e in Orderings(s) {
      ChainIsOrdering(adj, k, e);
    }
    forall e | e in Orderings(s) ensures e in fibre {
      OrderingIsChain(adj, k, s, e);
    }
    assert fibre == Orderings(s);
    OrderingsCard(s);
  }

  /** Chains of the undirected graph: k! for each clique. */
  lemma UndirectedChains(adj: Adjacency, k: nat)
    requires Undirected(adj)
    ensures |ChainsOf(adj, k)| == Factorial(k) * |CliquesOf(adj, k)|
  {
    hide *;
    forall e | e in ChainsOf(adj, k) ensures SetOf()(e) in CliquesOf(adj, k) {
      SetOfIsElements(e);
      ChainIsOrdering(adj, k, e);
    }
    forall s | s in CliquesOf(adj, k)
      ensures |Fibre(ChainsOf(adj, k), SetOf(), s)| == Factorial(k)
    {
      CliqueFibre(adj, k, s);
    }
    FibreCard(ChainsOf(adj, k), CliquesOf(adj, k), SetOf(), Factorial(k));
  }

  // ---------- The orientation ----------

  /** u is ranked before v: by degree, then by id. */
  predicate Precedes(degrees: seq<nat>, u: nat, v: nat) {
    u < |degrees| && v < |degrees| && (degrees[v] > degrees[u] || (degrees[v] == degrees[u] && v > u))
  }

  ghost function Degrees(adj: Adjacency): seq<nat> {
    seq(|adj|, v requires 0 <= v < |adj| => |adj[v]|)
  }

  /** Each edge kept in the direction of the rank. */
  ghost function Oriented(adj: Adjacency): (kept: Adjacency)
    ensures |kept| == |adj|
  {
    seq(|adj|, u requires 0 <= u < |adj| => set v | v in adj[u] && Precedes(Degrees(adj), u, v))
  }

  lemma OrientedAdj(adj: Adjacency, u: nat, v: nat)
    ensures Adj(Oriented(adj), u, v) <==> Adj(adj, u, v) && Precedes(Degrees(adj), u, v)
  {
  }

  /** Each edge is kept from its end with fewer neighbours, and between equals from the smaller vertex. */
  lemma KeptDirection(adj: Adjacency, u: nat, v: nat)
    requires Loopless(adj)
    ensures Adj(Oriented(adj), u, v) <==>
              Adj(adj, u, v) && v < |adj| && (|adj[u]| < |adj[v]| || (|adj[u]| == |adj[v]| && u < v))
  {
    OrientedAdj(adj, u, v);
  }

  ghost function Degree(adj: Adjacency): nat -> int {
    (v: nat) => if v < |adj| then |adj[v]| else 0
  }

  /** Each kept successor of v had as many neighbours as v at least, so v has at most the square root of all. */
  lemma SuccessorsSquared(adj: Adjacency, v: nat)
    requires Loopless(adj) && v < |adj|
    ensures |Oriented(adj)[v]| * |Oriented(adj)[v]| <= Sum(Below(|adj|), Degree(adj))
  {
    var kept := Oriented(adj)[v];
    assert kept <= adj[v] && kept <= Below(|adj|);
    SubsetCard(kept, adj[v]);
    forall u | u in kept ensures u < |adj| && Degree(adj)(u) >= |kept| {
      assert Adj(Oriented(adj), v, u);
      KeptDirection(adj, v, u);
    }
    assert forall u: nat :: Degree(adj)(u) >= 0;
    hide *;
    SumAtLeast<nat>(kept, Degree(adj), |kept|);
    SumOfPart<nat>(Below(|adj|), kept, Degree(adj));
  }

  /** Exactly one direction of each edge is kept. */
  lemma OneDirection(adj: Adjacency, u: nat, v: nat)
    requires Undirected(adj) && Adj(adj, u, v)
    ensures Adj(Oriented(adj), u, v) <==> !Adj(Oriented(adj), v, u)
  {
    OrientedAdj(adj, u, v);
    OrientedAdj(adj, v, u);
  }

  ghost function KeptEdge(adj: Adjacency): (nat, nat) -> bool {
    (u: nat, v: nat) => Adj(Oriented(adj), u, v)
  }

  /** The edges of v are those kept from v and those kept to v. */
  lemma KeptFromAndTo(adj: Adjacency, v: nat)
    requires Undirected(adj) && v < |adj|
    ensures Related(v, Below(|adj|), KeptEdge(adj)) == Oriented(adj)[v]
    ensures |Oriented(adj)[v]| + |CoRelated(v, Below(|adj|), KeptEdge(adj))| == |adj[v]|
  {
    var from, to := Oriented(adj)[v], CoRelated(v, Below(|adj|), KeptEdge(adj));
    forall u: nat
      ensures u in from <==> u < |adj| && Adj(Oriented(adj), v, u)
      ensures u in to <==> u < |adj| && Adj(Oriented(adj), u, v)
      ensures u in adj[v] <==> u in from + to
      ensures !(u in from && u in to)
    {
      BothWays(adj, u, v);
      BothWays(adj, v, u);
      OrientedAdj(adj, u, v);
      OrientedAdj(adj, v, u);
      if Adj(adj, v, u) {
        OneDirection(adj, v, u);
      }
    }
    assert Related(v, Below(|adj|), KeptEdge(adj)) == from;
    assert adj[v] == from + to && from !! to;
  }

  /** Half of the directed edges are kept. */
  lemma HalfIsKept(adj: Adjacency)
    requires Undirected(adj)
    ensures 2 * Sum(Below(|adj|), Degree(Oriented(adj))) == Sum(Below(|adj|), Degree(adj))
  {
    var all, kept := Below(|adj|), Degree(Oriented(adj));
    var others := (v: nat) => Degree(adj)(v) - kept(v);
    forall v: nat | v in all
      ensures kept(v) == |Related(v, all, KeptEdge(adj))| && others(v) == |CoRelated(v, all, KeptEdge(adj))|
    {
      KeptFromAndTo(adj, v);
    }
    hide *;
    DoubleCount(all, all, KeptEdge(adj), kept, others);
    forall v: nat | v in all ensures Degree(adj)(v) == kept(v) + others(v) {
    }
    SumAdd(all, kept, others, Degree(adj));
  }

  /** No walk along kept edges returns: the orientation is acyclic. */
  lemma {:induction false} OrientedAcyclic(adj: Adjacency, walk: seq<nat>)
    requires Loopless(adj) && |walk| >= 2
    requires forall i :: 0 <= i < |walk| - 1 ==> Adj(Oriented(adj), walk[i], walk[i + 1])
    ensures Precedes(Degrees(adj), walk[0], walk[|walk| - 1]) && walk[0] != walk[|walk| - 1]
  {
    var m := |walk| - 1;
    OrientedAdj(adj, walk[m - 1], walk[m]);
    assert Adj(Oriented(adj), walk[m - 1], walk[m - 1 + 1]);
    if m > 1 {
      var front := walk[..m];
      forall i | 0 <= i < |front| - 1 ensures Adj(Oriented(adj), front[i], front[i + 1]) {
        assert Adj(Oriented(adj), walk[i], walk[i + 1]);
      }
      OrientedAcyclic(adj, front);
    }
  }

  // ---------- On the orientation a clique is exactly one chain ----------

  lemma OrientedChain(adj: Adjacency, k: nat, e: seq<nat>)
    requires Undirected(adj) && e in ChainsOf(Oriented(adj), k)
    ensures Elements(e) in CliquesOf(adj, k)
    ensures forall i, j :: 0 <= i < j < |e| ==> Precedes(Degrees(adj), e[i], e[j])
  {
    ChainsMember(Oriented(adj), k, e);
    ChainsMember(adj, k, e);
    forall i, j | 0 <= i < j < |e| ensures Precedes(Degrees(adj), e[i], e[j]) && Adj(adj, e[i], e[j]) {
      assert Adj(Oriented(adj), e[i], e[j]);
      OrientedAdj(adj, e[i], e[j]);
    }
    ChainIsOrdering(adj, k, e);
  }

  ghost predicate RankedBy(degrees: seq<nat>, e: seq<nat>) {
    forall i, j :: 0 <= i < j < |e| ==> Precedes(degrees, e[i], e[j])
  }

  lemma RankedLast(degrees: seq<nat>, e: seq<nat>)
    requires RankedBy(degrees, e) && e != []
    ensures Elements(e[..|e| - 1]) == Elements(e) - {e[|e| - 1]}
  {
    var m := |e| - 1;
    assert e == e[..m] + [e[m]];
    forall i | 0 <= i < m ensures e[i] != e[m] {
      assert Precedes(degrees, e[i], e[m]);
    }
  }

  /** No element of f comes after the last of e when both have the same elements. */
  lemma LastIsMaximal(degrees: seq<nat>, e: seq<nat>, f: seq<nat>)
    requires RankedBy(degrees, e) && Elements(e) == Elements(f) && e != [] && f != []
    ensures f[|f| - 1] == e[|e| - 1] || Precedes(degrees, f[|f| - 1], e[|e| - 1])
  {
    assert f[|f| - 1] in Elements(e);
    var i :| 0 <= i < |e| && e[i] == f[|f| - 1];
  }

  lemma {:induction false} RankedUnique(degrees: seq<nat>, e: seq<nat>, f: seq<nat>)
    requires RankedBy(degrees, e) && RankedBy(degrees, f) && Elements(e) == Elements(f)
    ensures e == f
  {
    NoElements(e);
    NoElements(f);
    if e != [] {
      var m, n := |e| - 1, |f| - 1;
      LastIsMaximal(degrees, e, f);
      LastIsMaximal(degrees, f, e);
      assert e[m] == f[n];
      assert Elements(e[..m]) == Elements(e) - {e[m]} by { RankedLast(degrees, e); }
      assert Elements(f[..n]) == Elements(f) - {f[n]} by { RankedLast(degrees, f); }
      RankedUnique(degrees, e[..m], f[..n]);
      assert e == e[..m] + [e[m]] && f == f[..n] + [f[n]];
    }
  }

  lemma LastByRank(degrees: seq<nat>, s: set<nat>) returns (u: nat)
    requires s != {} && s <= Below(|degrees|)
    ensures u in s && forall w :: w in s ==> w == u || Precedes(degrees, w, u)
    decreases s
  {
    u :| u in s;
    if s != {u} {
      var v := LastByRank(degrees, s - {u});
      assert forall w :: w in s ==> w == u || w in s - {u};
      assert u in Below(|degrees|) && v in Below(|degrees|);
      if Precedes(degrees, u, v) {
        u := v;
      }
    }
  }

  lemma {:induction false} RankedExists(degrees: seq<nat>, s: set<nat>) returns (e: seq<nat>)
    requires s <= Below(|degrees|)
    ensures RankedBy(degrees, e) && Elements(e) == s
    decreases s
  {
    if s == {} {
      e := [];
    } else {
      var u := LastByRank(degrees, s);
      var front := RankedExists(degrees, s - {u});
      e := front + [u];
      forall i, j | 0 <= i < j < |e| ensures Precedes(degrees, e[i], e[j]) {
        if j == |front| {
          assert e[i] in Elements(front);
        }
      }
      assert Elements(e) == Elements(front) + {u};
    }
  }

  lemma RankedIsOrientedChain(adj: Adjacency, k: nat, s: set<nat>, e: seq<nat>)
    requires Undirected(adj) && s in CliquesOf(adj, k) && RankedBy(Degrees(adj), e) && Elements(e) == s
    ensures e in ChainsOf(Oriented(adj), k)
  {
    assert NoDuplicates(e) by {
      forall i, j | 0 <= i < j < |e| ensures e[i] != e[j] {
        assert Precedes(Degrees(adj), e[i], e[j]);
      }
    }
    NoDuplicatesCard(e);
    forall i | 0 <= i < |e| ensures e[i] < |adj| {
      assert e[i] in Elements(e);
      assert e[i] in Below(|adj|);
    }
    forall i, j | 0 <= i < j < |e| ensures Adj(Oriented(adj), e[i], e[j]) {
      assert e[i] in s && e[j] in s && Precedes(Degrees(adj), e[i], e[j]);
      OrientedAdj(adj, e[i], e[j]);
    }
    ChainsMember(Oriented(adj), k, e);
  }

  lemma ChainIsRanked(adj: Adjacency, e: seq<nat>)
    requires forall i, j :: 0 <= i < j < |e| ==> Precedes(Degrees(adj), e[i], e[j])
    ensures RankedBy(Degrees(adj), e)
  {
  }

  lemma CliqueInRange(adj: Adjacency, k: nat, s: set<nat>)
    requires s in CliquesOf(adj, k)
    ensures s <= Below(|Degrees(adj)|)
  {
  }

  /** Chains of the orientation: one for each clique. */
  lemma OrientedChains(adj: Adjacency, k: nat)
    requires Undirected(adj)
    ensures |ChainsOf(Oriented(adj), k)| == |CliquesOf(adj, k)|
  {
    hide *;
    var chains, h := ChainsOf(Oriented(adj), k), SetOf();
    forall e | e in chains ensures h(e) in CliquesOf(adj, k) {
      SetOfIsElements(e);
      OrientedChain(adj, k, e);
    }
    forall e, f | e in chains && f in chains && h(e) == h(f) ensures e == f {
      SetOfIsElements(e);
      SetOfIsElements(f);
      OrientedChain(adj, k, e);
      OrientedChain(adj, k, f);
      ChainIsRanked(adj, e);
      ChainIsRanked(adj, f);
      RankedUnique(Degrees(adj), e, f);
    }
    forall s | s in CliquesOf(adj, k) ensures exists e :: e in chains && h(e) == s {
      CliqueInRange(adj, k, s);
      var e := RankedExists(Degrees(adj), s);
      RankedIsOrientedChain(adj, k, s, e);
      SetOfIsElements(e);
      assert e in chains && h(e) == s;
    }
    BijectionCard(chains, CliquesOf(adj, k), h);
  }
}
