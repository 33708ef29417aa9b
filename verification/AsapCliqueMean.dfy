/** The exact mean of the 4-clique sampler. */
module AsapCliqueMean {
  import opened Counting
  import opened CsrGraph
  import opened Draws
  import opened Cliques
  import opened CommonNeighbors
  import opened Asap
  import opened AsapClique

  // ---------- Candidates that close ----------

  /** h of the drawn vertex, if it is adjacent to all used ones. */
  ghost function OnClosing(g: EdgeGraph, adj: Adjacency, used: set<nat>, h: nat -> int): nat -> int {
    (idx: nat) =>
      if idx < |g.edge_list| && g.edge_list[idx].v_end in Commons(adj, used) then h(g.edge_list[idx].v_end) else 0
  }

  ghost function EndsAt(g: EdgeGraph): (nat, nat) -> bool {
    (idx: nat, w: nat) => idx < |g.edge_list| && g.edge_list[idx].v_end == w
  }

  ghost function StartsAt(g: EdgeGraph): nat -> nat {
    (idx: nat) => if idx < |g.edge_list| then g.edge_list[idx].v_start else 0
  }

  ghost function Scaled(h: nat -> int, k: nat): nat -> int {
    (w: nat) => k * h(w)
  }

  lemma OnClosingIsSum(g: EdgeGraph, adj: Adjacency, used: set<nat>, h: nat -> int, idx: nat)
    ensures OnClosing(g, adj, used, h)(idx) == Sum(Related(idx, Commons(adj, used), EndsAt(g)), h)
  {
    hide Commons;
    var related := Related(idx, Commons(adj, used), EndsAt(g));
    if idx < |g.edge_list| && g.edge_list[idx].v_end in Commons(adj, used) {
      assert related == {g.edge_list[idx].v_end};
      SumConstant(related, h, h(g.edge_list[idx].v_end));
    } else {
      assert related == {};
    }
  }

  lemma CommonIsNew(adj: Adjacency, s: set<nat>, w: nat)
    requires Loopless(adj) && w in Commons(adj, s)
    ensures w !in s
  {
  }

  /** A common neighbour is reached by one candidate from each used vertex. */
  lemma ReachedFromEach(g: EdgeGraph, adj: Adjacency, cand: set<nat>, open: seq<nat>, used: set<nat>, w: nat)
    requires Stores(g, adj) && AllOpen(g, open, used) && w in Commons(adj, used)
    requires forall idx :: idx in cand <==> IsCandidate(g, open, used, idx)
    ensures |CoRelated(w, cand, EndsAt(g))| == |used|
  {
    var s := CoRelated(w, cand, EndsAt(g));
    forall idx, idx' | idx in s && idx' in s && StartsAt(g)(idx) == StartsAt(g)(idx') ensures idx == idx' {
      assert g.edge_list[idx] == g.edge_list[idx'];
    }
    forall x | x in used ensures exists idx :: idx in s && StartsAt(g)(idx) == x {
      assert Adj(adj, x, w);
      assert Edge(x, w) in g.edge_list;
      var idx :| 0 <= idx < |g.edge_list| && g.edge_list[idx] == Edge(x, w);
      CommonIsNew(adj, used, w);
      assert IsCandidate(g, open, used, idx);
      assert StartsAt(g)(idx) == x;
    }
    BijectionCard(s, used, StartsAt(g));
  }

  lemma ScaledIsTimes(h: nat -> int, k: nat, w: nat)
    ensures Scaled(h, k)(w) == Times(k, h(w)) == k * h(w)
  {
  }

  /** Over all candidates, each common neighbour counts once for each used vertex. */
  lemma ClosingSum(g: EdgeGraph, adj: Adjacency, open: seq<nat>, used: set<nat>, h: nat -> int)
    requires Stores(g, adj) && AllOpen(g, open, used)
    ensures ListSum(Candidates(g, open, used), OnClosing(g, adj, used, h)) == |used| * Sum(Commons(adj, used), h)
  {
    hide *;
    var list := Candidates(g, open, used);
    var cand, f, byW := Elements(list), OnClosing(g, adj, used, h), Scaled(h, |used|);
    OpenFacts(g, open, used);
    CandidatesExact(g, adj, open, used);
    ListSumIsSum(list, f);
    forall idx: nat ensures idx in cand <==> IsCandidate(g, open, used, idx) {
      ElementsMember(list, idx);
    }
    forall idx: nat | idx in cand ensures f(idx) == Sum(Related(idx, Commons(adj, used), EndsAt(g)), h) {
      OnClosingIsSum(g, adj, used, h, idx);
    }
    forall w: nat | w in Commons(adj, used)
      ensures byW(w) == Times(|CoRelated(w, cand, EndsAt(g))|, h(w)) && byW(w) == |used| * h(w)
    {
      ReachedFromEach(g, adj, cand, open, used, w);
      ScaledIsTimes(h, |used|, w);
    }
    SumExchange(cand, Commons(adj, used), EndsAt(g), h, f, byW);
    SumScale(Commons(adj, used), h, |used|, byW);
  }

  // ---------- The mean, from the last draw back ----------

  lemma WeighOne(p: real)
    ensures Weigh(p, 1) == p && Weigh(p, 0) == 0.0
  {
  }

  ghost function One(): nat -> int {
    (w: nat) => 1
  }

  /** In how many ways the last two extensions can close a clique on s. */
  ghost function LastWays(adj: Adjacency, s: set<nat>): int {
    3 * Sum(Commons(adj, s), One())
  }

  ghost function LastWaysFor(adj: Adjacency, s: set<nat>): nat -> int {
    (w: nat) => LastWays(adj, s + {w})
  }

  lemma ClosesWhenCommon(g: EdgeGraph, adj: Adjacency, n: Nodes, e1: Edge, open: seq<nat>, used: set<nat>, idx: nat)
    requires Stores(g, adj) && AllOpen(g, open, used) && IsCandidate(g, open, used, idx)
    requires used == {n.node1, n.node2, n.node3}
    ensures Closes(g, Drawn(n, e1, 1, g.edge_list[idx])) <==> g.edge_list[idx].v_end in Commons(adj, used)
  {
    hide Stores, Closes;
    var e := g.edge_list[idx];
    ClosesIs(g, adj, Drawn(n, e1, 1, e));
    assert e in g.edge_list;
    EdgeEnds(g, adj, e);
    assert e.v_end in Below(|adj|);
  }

  lemma TriangleWhenCommon(g: EdgeGraph, adj: Adjacency, n: Nodes, e1: Edge, open: seq<nat>, used: set<nat>, idx: nat)
    requires Stores(g, adj) && e1 in g.edge_list && AllOpen(g, open, used) && IsCandidate(g, open, used, idx)
    requires used == {e1.v_start, e1.v_end}
    ensures var e := g.edge_list[idx];
            var n' := Drawn(n, e1, 0, e);
            && (Linked(g, n'.node1, n'.node3) <==> e.v_end in Commons(adj, used))
            && used + {e.v_start, e.v_end} == {n'.node1, n'.node2, n'.node3} == used + {e.v_end}
            && |used + {e.v_end}| == 3
  {
    hide Stores;
    var e := g.edge_list[idx];
    var n' := Drawn(n, e1, 0, e);
    assert e in g.edge_list;
    EdgeEnds(g, adj, e);
    EdgeEnds(g, adj, e1);
    LinkedIsAdj(g, adj, n'.node1, n'.node3);
    assert e.v_end in Below(|adj|);
    assert |used| == 2;
  }

  lemma StepEmpty(g: EdgeGraph, e1: Edge, n: Nodes, open: seq<nat>, used: set<nat>, j: nat, p: real, f: nat -> int)
    requires j < 2 && Candidates(g, open, used) == []
    ensures Mean(CliqueStep(g, e1, n, open, used, j, p)) == Weigh(p, ListSum(Candidates(g, open, used), f))
  {
  }

  /** If each branch has the mean of its closings, so has the extension. */
  lemma StepMean(g: EdgeGraph, adj: Adjacency, e1: Edge, n: Nodes, open: seq<nat>, used: set<nat>, j: nat, p: real,
                 h: nat -> int)
    requires Stores(g, adj) && AllOpen(g, open, used) && j < 2
    requires forall i :: 0 <= i < |Candidates(g, open, used)| && Candidates(g, open, used)[i] < |g.edge_list| ==>
               Mean(CliqueNext(g, e1, n, open, used, j, Weigh(p, |Candidates(g, open, used)|),
                               g.edge_list[Candidates(g, open, used)[i]]))
               == Weigh(Weigh(p, |Candidates(g, open, used)|), OnClosing(g, adj, used, h)(Candidates(g, open, used)[i]))
    ensures Mean(CliqueStep(g, e1, n, open, used, j, p)) == Weigh(p, |used| * Sum(Commons(adj, used), h))
  {
    hide *;
    var cand, f := Candidates(g, open, used), OnClosing(g, adj, used, h);
    ClosingSum(g, adj, open, used, h);
    if cand == [] {
      StepEmpty(g, e1, n, open, used, j, p, f);
    } else {
      var branches := CliqueBranches(g, e1, n, open, used, j, p, cand);
      forall i | 0 <= i < |cand| ensures Mean(branches[i]) == Weigh(Weigh(p, |cand|), f(cand[i])) {
        CandidateEdge(g, adj, open, used, i);
        BranchIs(g, e1, n, open, used, j, p, i);
      }
      CandidateEdge(g, adj, open, used, 0);
      BranchIs(g, e1, n, open, used, j, p, 0);
      UniformMean(branches, cand, f, p);
    }
  }

  lemma ClosingIs(g: EdgeGraph, adj: Adjacency, used: set<nat>, h: nat -> int, idx: nat)
    requires idx < |g.edge_list|
    ensures OnClosing(g, adj, used, h)(idx)
            == if g.edge_list[idx].v_end in Commons(adj, used) then h(g.edge_list[idx].v_end) else 0
  {
  }

  lemma LastWaysIs(adj: Adjacency, s: set<nat>)
    requires |s| == 3
    ensures LastWays(adj, s) == |s| * Sum(Commons(adj, s), One())
    ensures forall w :: One()(w) == 1
  {
  }

  lemma MeanReturn(x: real)
    ensures Mean(Return(x)) == x
  {
  }

  /** With a triangle drawn. */
  lemma SecondMean(g: EdgeGraph, adj: Adjacency, e1: Edge, n: Nodes, open: seq<nat>, used: set<nat>, p: real)
    requires Stores(g, adj) && AllOpen(g, open, used) && used == {n.node1, n.node2, n.node3} && |used| == 3
    ensures Mean(CliqueStep(g, e1, n, open, used, 1, p)) == Weigh(p, LastWays(adj, used))
  {
    hide *;
    var cand := Candidates(g, open, used);
    var p' := Weigh(p, |cand|);
    LastWaysIs(adj, used);
    forall i | 0 <= i < |cand| && cand[i] < |g.edge_list|
      ensures Mean(CliqueNext(g, e1, n, open, used, 1, p', g.edge_list[cand[i]]))
              == Weigh(p', OnClosing(g, adj, used, One())(cand[i]))
    {
      var e := g.edge_list[cand[i]];
      CandidateEdge(g, adj, open, used, i);
      NextIs(g, e1, n, open, used, 1, p', e);
      RunEnds(g, e1, Drawn(n, e1, 1, e), Emplace(open, e.v_end), used + {e.v_start, e.v_end}, p');
      ClosesWhenCommon(g, adj, n, e1, open, used, cand[i]);
      ClosingIs(g, adj, used, One(), cand[i]);
      WeighOne(p');
      MeanReturn(if Closes(g, Drawn(n, e1, 1, e)) then p' else 0.0);
    }
    StepMean(g, adj, e1, n, open, used, 1, p, One());
  }

  lemma LastWaysForIs(adj: Adjacency, s: set<nat>, w: nat)
    ensures LastWaysFor(adj, s)(w) == LastWays(adj, s + {w})
  {
  }

  /** With one edge drawn. */
  lemma FirstMean(g: EdgeGraph, adj: Adjacency, e1: Edge, n: Nodes, open: seq<nat>, used: set<nat>, p: real)
    requires Stores(g, adj) && e1 in g.edge_list && AllOpen(g, open, used) && used == {e1.v_start, e1.v_end}
    ensures Mean(CliqueStep(g, e1, n, open, used, 0, p))
            == Weigh(p, |used| * Sum(Commons(adj, used), LastWaysFor(adj, used)))
  {
    hide *;
    var cand, h := Candidates(g, open, used), LastWaysFor(adj, used);
    var p' := Weigh(p, |cand|);
    forall i | 0 <= i < |cand| && cand[i] < |g.edge_list|
      ensures Mean(CliqueNext(g, e1, n, open, used, 0, p', g.edge_list[cand[i]]))
              == Weigh(p', OnClosing(g, adj, used, h)(cand[i]))
    {
      var e := g.edge_list[cand[i]];
      CandidateEdge(g, adj, open, used, i);
      NextIs(g, e1, n, open, used, 0, p', e);
      TriangleWhenCommon(g, adj, n, e1, open, used, cand[i]);
      StillOpen(g, adj, open, used, e);
      ClosingIs(g, adj, used, h, cand[i]);
      WeighOne(p');
      MeanReturn(0.0);
      if e.v_end in Commons(adj, used) {
        SecondMean(g, adj, e1, Drawn(n, e1, 0, e), Emplace(open, e.v_end), used + {e.v_start, e.v_end}, p');
        LastWaysForIs(adj, used, e.v_end);
      }
    }
    StepMean(g, adj, e1, n, open, used, 0, p, h);
  }

  // ---------- Summing over the first edge ----------

  ghost function LastWaysOf(adj: Adjacency): seq<nat> -> int {
    (p: seq<nat>) => LastWays(adj, Elements(p))
  }

  ghost function FirstWays(adj: Adjacency): Edge -> int {
    (e: Edge) => 2 * CommonsSum(adj, LastWaysOf(adj))(EndsOf(e))
  }

  ghost function Unit(): seq<nat> -> int {
    (p: seq<nat>) => 1
  }

  lemma FirstWaysIs(adj: Adjacency, e: Edge)
    requires e.v_start != e.v_end
    ensures var used := {e.v_start, e.v_end};
            FirstWays(adj)(e) == |used| * Sum(Commons(adj, used), LastWaysFor(adj, used))
  {
    hide Commons, LastWays;
    var used, q := {e.v_start, e.v_end}, EndsOf(e);
    assert Elements(q) == used;
    assert |used| == 2;
    forall w ensures OnAppended(q, LastWaysOf(adj))(w) == LastWaysFor(adj, used)(w) {
      assert Elements(q + [w]) == used + {w};
    }
    SumCongruence(Commons(adj, used), OnAppended(q, LastWaysOf(adj)), LastWaysFor(adj, used));
    assert CommonsSum(adj, LastWaysOf(adj))(q) == Sum(Commons(adj, used), OnAppended(q, LastWaysOf(adj)));
  }

  lemma EdgeIsChain(g: EdgeGraph, adj: Adjacency, e: Edge)
    requires Stores(g, adj)
    ensures e in g.edge_list <==> EndsOf(e) in ChainsOf(adj, 2)
  {
    var q := EndsOf(e);
    ChainsMember(adj, 2, q);
    if q in ChainsOf(adj, 2) {
      assert Adj(adj, q[0], q[1]);
    }
    if e in g.edge_list {
      EdgeEnds(g, adj, e);
    }
  }

  ghost function Doubled(f: seq<nat> -> int): seq<nat> -> int {
    p => 2 * f(p)
  }

  lemma LastWaysAreChains(adj: Adjacency, p: seq<nat>)
    ensures LastWaysOf(adj)(p) == 3 * CommonsSum(adj, Unit())(p)
  {
    hide Commons;
    forall w: nat ensures One()(w) == OnAppended(p, Unit())(w) {
    }
    SumCongruence(Commons(adj, Elements(p)), One(), OnAppended(p, Unit()));
  }

  lemma FirstWaysDoubled(adj: Adjacency, e: Edge)
    ensures FirstWays(adj)(e) == Doubled(CommonsSum(adj, LastWaysOf(adj)))(EndsOf(e))
  {
  }

  lemma DoubledIs(f: seq<nat> -> int, p: seq<nat>)
    ensures Doubled(f)(p) == 2 * f(p)
  {
  }

  lemma UnitIs(p: seq<nat>)
    ensures Unit()(p) == 1
  {
  }

  /** The successful runs: 6 for each ordered 4-clique. */
  lemma FirstWaysSum(g: EdgeGraph, adj: Adjacency)
    requires Stores(g, adj)
    ensures Sum(Elements(g.edge_list), FirstWays(adj)) == 6 * |ChainsOf(adj, 4)|
  {
    hide *;
    var byFront := CommonsSum(adj, LastWaysOf(adj));
    forall e ensures FirstWays(adj)(e) == Doubled(byFront)(EndsOf(e)) {
      FirstWaysDoubled(adj, e);
    }
    forall e ensures e in g.edge_list <==> EndsOf(e) in ChainsOf(adj, 2) {
      EdgeIsChain(g, adj, e);
    }
    forall p | p in ChainsOf(adj, 2) ensures |p| == 2 {
      ChainsMember(adj, 2, p);
    }
    SumOverEdges(g, ChainsOf(adj, 2), Doubled(byFront), FirstWays(adj));
    forall p ensures Doubled(byFront)(p) == 2 * byFront(p) {
      DoubledIs(byFront, p);
    }
    SumScale(ChainsOf(adj, 2), byFront, 2, Doubled(byFront));
    ChainsByFront(adj, 2, LastWaysOf(adj));
    forall p ensures LastWaysOf(adj)(p) == 3 * CommonsSum(adj, Unit())(p) {
      LastWaysAreChains(adj, p);
    }
    SumScale(ChainsOf(adj, 3), CommonsSum(adj, Unit()), 3, LastWaysOf(adj));
    ChainsByFront(adj, 3, Unit());
    forall p ensures Unit()(p) == 1 {
      UnitIs(p);
    }
    SumConstant(ChainsOf(adj, 4), Unit(), 1);
  }

  lemma TreeIs(g: EdgeGraph)
    ensures CliqueTree(g).Uniform? && |CliqueTree(g).branches| == |g.edge_list|
    ensures forall i :: 0 <= i < |g.edge_list| ==>
              var e := g.edge_list[i];
              CliqueTree(g).branches[i] == CliqueStep(g, e, NoNodes(), Ends(e), {e.v_start, e.v_end}, 0,
                                                      |g.edge_list| as real)
  {
    hide CliqueStep, Ends;
  }

  lemma FourFactorial()
    ensures Factorial(4) == 24
  {
  }

  /** The exact mean of the 4-clique sampler, over all its draws: 144 for each 4-clique. */
  lemma CliqueMean(g: EdgeGraph, adj: Adjacency)
    requires Stores(g, adj) && g.edge_list != []
    ensures Mean(CliqueTree(g)) == (144 * |CliquesOf(adj, 4)|) as real
  {
    hide *;
    var tree, edges, f := CliqueTree(g), g.edge_list, FirstWays(adj);
    StoresEach(g, adj);
    TreeIs(g);
    forall i | 0 <= i < |edges| ensures Mean(tree.branches[i]) == Weigh(Weigh(1.0, |edges|), f(edges[i])) {
      var e := edges[i];
      UnitWeight(|edges|);
      StartOpen(g, adj, e);
      EdgeEnds(g, adj, e);
      FirstMean(g, adj, e, NoNodes(), Ends(e), {e.v_start, e.v_end}, |edges| as real);
      FirstWaysIs(adj, e);
    }
    UniformMean(tree.branches, edges, f, 1.0);
    ListSumIsSum(edges, f);
    FirstWaysSum(g, adj);
    UndirectedChains(adj, 4);
    FourFactorial();
    UnitWeight(144 * |CliquesOf(adj, 4)|);
  }
}
