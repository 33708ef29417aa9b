/** The chain estimator: its exact mean is 2^(k-1) times the number of simple paths on k vertices
    (arya_asap/graph_counting/src/ASAP_single_machine/estimating.h:604-658). */
module AsapChain {
  import opened Counting
  import opened CsrGraph
  import opened Draws
  import opened Paths
  import opened Asap
  import opened AsapGrowth

  /** A chain needs no test at the end. */
  ghost function Always(): seq<nat> -> bool {
    q => true
  }

  ghost function ChainStart(g: EdgeGraph, k: nat, e: Edge): Draw
    requires k >= 2
  {
    GrowStep(g, EndsOf(e), Ends(e), {e.v_start, e.v_end}, k - 2, |g.edge_list| as real, Always())
  }

  /** The whole sampler: one of all list entries, then k - 2 extensions. */
  ghost function ChainTree(g: EdgeGraph, k: nat): Draw
    requires k >= 2
  {
    Uniform(seq(|g.edge_list|, i requires 0 <= i < |g.edge_list| => ChainStart(g, k, g.edge_list[i])))
  }

  // ---------- The program follows the tree ----------

  lemma FirstBranch(g: EdgeGraph, k: nat, c: nat)
    requires k >= 2 && c < |g.edge_list|
    ensures var e := g.edge_list[c];
            Reaches(ChainTree(g, k), [Outcome(|g.edge_list|, c)],
                    GrowStep(g, EndsOf(e), Ends(e), {e.v_start, e.v_end}, k - 2, |g.edge_list| as real, Always()))
  {
    ReachesBranch(ChainTree(g, k), [], ChainTree(g, k).branches, c);
    assert [] + [Outcome(|g.edge_list|, c)] == [Outcome(|g.edge_list|, c)];
  }

  lemma ChainEnds(g: EdgeGraph, q: seq<nat>, open: seq<nat>, used: set<nat>, p: real)
    ensures GrowStep(g, q, open, used, 0, p, Always()) == Return(p)
  {
  }

  method ChainSampler(g: EdgeGraph, ghost adj: Adjacency, k: nat, engine: Engine)
    returns (r: real, ghost draws: seq<Outcome>)
    requires Stores(g, adj) && g.edge_list != [] && k >= 2
    modifies engine
    ensures engine.drawn == old(engine.drawn) + draws && Runs(ChainTree(g, k), draws, r)
  {
    hide *;
    var last := engine.Next(|g.edge_list|);
    var e1 := g.edge_list[last];
    draws := [Outcome(|g.edge_list|, last)];
    ghost var tree, test := ChainTree(g, k), Always();
    FirstBranch(g, k, last);
    EndsInTable(g, adj, e1);
    ghost var chain := EndsOf(e1);
    var used := {e1.v_start, e1.v_end};
    var open := Ends(e1);
    r := |g.edge_list| as real;
    for j := 0 to k - 2
      invariant engine.drawn == old(engine.drawn) + draws
      invariant StrictlyIncreasing(open) && forall v :: v in open ==> v in g.v_table
      invariant Reaches(tree, draws, GrowStep(g, chain, open, used, k - 2 - j, r, test))
    {
      var found, total := CollectCandidates(g, adj, open, used);
      ghost var p := r;
      r := Weigh(r, total);
      if total == 0 {
        DeadEnd(g, chain, open, used, k - 2 - j, p, test);
        RunDone(tree, draws, 0.0);
        r := 0.0;
        return;
      }
      var c := engine.Next(total);
      CandidateEdge(g, adj, open, used, c);
      StepBranch(g, chain, open, used, k - 2 - j, p, test, tree, draws, c);
      var e := g.edge_list[found[c]];
      OpenInTable(g, adj, open, e);
      draws := draws + [Outcome(total, c)];
      chain := Extended(chain, e);
      used := used + {e.v_start, e.v_end};
      open := Emplace(Erase(open, e.v_start), e.v_end);
    }
    ChainEnds(g, chain, open, used, r);
    RunDone(tree, draws, r);
  }

  // ---------- The mean ----------

  ghost function StartWays(adj: Adjacency, s: nat, f: seq<nat> -> int): Edge -> int {
    (e: Edge) => Ways(adj, EndsOf(e), s, f)
  }

  lemma StartIs(adj: Adjacency, s: nat, f: seq<nat> -> int, e: Edge)
    ensures StartWays(adj, s, f)(e) == Ways(adj, EndsOf(e), s, f) == WaysFor(adj, s, f)(EndsOf(e))
  {
  }

  lemma TreeIs(g: EdgeGraph, k: nat)
    requires k >= 2
    ensures ChainTree(g, k).Uniform? && |ChainTree(g, k).branches| == |g.edge_list|
    ensures forall i :: 0 <= i < |g.edge_list| ==>
              var e := g.edge_list[i];
              ChainTree(g, k).branches[i]
              == GrowStep(g, EndsOf(e), Ends(e), {e.v_start, e.v_end}, k - 2, |g.edge_list| as real, Always())
  {
    hide GrowStep, Ends;
  }

  lemma PowersAdd(k: nat, x: int)
    requires k >= 2
    ensures Pow(2, k - 2) * (2 * x) == Pow(2, k - 1) * x
  {
  }

  lemma AllCount(adj: Adjacency, m: nat)
    ensures Sum(PathsOf(adj, m), Worth(Always())) == |PathsOf(adj, m)|
  {
    SumConstant(PathsOf(adj, m), Worth(Always()), 1);
  }

  /** The exact mean of the chain sampler, over all its draws: 2^(k-1) for each simple path on k vertices. */
  lemma ChainMean(g: EdgeGraph, adj: Adjacency, k: nat)
    requires Stores(g, adj) && g.edge_list != [] && k >= 2
    ensures Mean(ChainTree(g, k)) == (Pow(2, k - 1) * |UndirectedPaths(adj, k)|) as real
  {
    hide *;
    var tree, edges, w := ChainTree(g, k), g.edge_list, Worth(Always());
    var f := StartWays(adj, k - 2, w);
    StoresEach(g, adj);
    TreeIs(g, k);
    forall i | 0 <= i < |edges| ensures Mean(tree.branches[i]) == Weigh(Weigh(1.0, |edges|), f(edges[i])) {
      var e := edges[i];
      UnitWeight(|edges|);
      StartDrew(g, adj, e);
      StartIs(adj, k - 2, w, e);
      StepMean(g, adj, EndsOf(e), Ends(e), {e.v_start, e.v_end}, k - 2, |edges| as real, Always());
    }
    UniformMean(tree.branches, edges, f, 1.0);
    ListSumIsSum(edges, f);
    forall e ensures f(e) == WaysFor(adj, k - 2, w)(EndsOf(e)) {
      StartIs(adj, k - 2, w, e);
    }
    SumOverStarts(g, adj, WaysFor(adj, k - 2, w), f);
    GrowAll(adj, 2, k - 2, w);
    AllCount(adj, k);
    PathsAreTwice(adj, k);
    PowersAdd(k, |UndirectedPaths(adj, k)|);
    UnitWeight(Pow(2, k - 1) * |UndirectedPaths(adj, k)|);
  }
}
