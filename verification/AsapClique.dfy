/** The 4-clique estimator: its exact mean is 144 times the number of 4-cliques
    (arya_asap/graph_counting/src/ASAP_single_machine/estimating.h:671-753). */
module AsapClique {
  import opened CsrGraph
  import opened Draws
  import opened Asap

  /** The vertex variables of the sampler. */
  datatype Nodes = Nodes(node1: nat, node2: nat, node3: nat, node3_: nat, node4: nat)

  /** The closing tests: node4 is linked to the vertices it was not drawn from. */
  ghost predicate Closes(g: EdgeGraph, n: Nodes) {
    && (n.node3_ != n.node1 ==> Linked(g, n.node1, n.node4))
    && (n.node3_ != n.node2 ==> Linked(g, n.node2, n.node4))
    && (n.node3_ != n.node3 ==> Linked(g, n.node3, n.node4))
  }

  /** The vertices after extension j has drawn e. */
  function Drawn(n: Nodes, e1: Edge, j: nat, e: Edge): Nodes {
    if j == 0 then
      n.(node1 := if e.v_start == e1.v_start then e1.v_end else e1.v_start, node2 := e.v_start, node3 := e.v_end)
    else
      n.(node3_ := e.v_start, node4 := e.v_end)
  }

  /** The run from extension j on, weight p so far. */
  ghost function CliqueStep(g: EdgeGraph, e1: Edge, n: Nodes, open: seq<nat>, used: set<nat>, j: nat, p: real): Draw
    requires j <= 2
    decreases 2 - j, 2
  {
    if j == 2 then Return(if Closes(g, n) then p else 0.0) else
      var cand := Candidates(g, open, used);
      if cand == [] then Return(0.0)
      else Uniform(CliqueBranches(g, e1, n, open, used, j, p, cand))
  }

  /** After drawing e: the first extension must close a triangle. */
  ghost function CliqueNext(g: EdgeGraph, e1: Edge, n: Nodes, open: seq<nat>, used: set<nat>, j: nat, p: real,
                            e: Edge): Draw
    requires j < 2
    decreases 2 - j, 0
  {
    var n' := Drawn(n, e1, j, e);
    if j == 0 && !Linked(g, n'.node1, n'.node3) then Return(0.0)
    else CliqueStep(g, e1, n', Emplace(open, e.v_end), used + {e.v_start, e.v_end}, j + 1, p)
  }

  ghost function CliqueBranches(g: EdgeGraph, e1: Edge, n: Nodes, open: seq<nat>, used: set<nat>, j: nat, p: real,
                                cand: seq<nat>): (bs: seq<Draw>)
    requires j < 2
    ensures |bs| == |cand|
    decreases 2 - j, 1
  {
    seq(|cand|, i requires 0 <= i < |cand| =>
      if cand[i] < |g.edge_list| then CliqueNext(g, e1, n, open, used, j, Weigh(p, |cand|), g.edge_list[cand[i]])
      else Return(0.0))
  }

  function NoNodes(): Nodes {
    Nodes(0, 0, 0, 0, 0)
  }

  ghost function CliqueStart(g: EdgeGraph, e: Edge): Draw {
    CliqueStep(g, e, NoNodes(), Ends(e), {e.v_start, e.v_end}, 0, |g.edge_list| as real)
  }

  ghost function CliqueTree(g: EdgeGraph): Draw {
    Uniform(seq(|g.edge_list|, i requires 0 <= i < |g.edge_list| => CliqueStart(g, g.edge_list[i])))
  }

  // ---------- The program follows the tree ----------

  /** The open vertices are the used ones, all in the table. */
  ghost predicate AllOpen(g: EdgeGraph, open: seq<nat>, used: set<nat>) {
    && StrictlyIncreasing(open)
    && (forall v :: v in open <==> v in used)
    && (forall v :: v in used ==> v in g.v_table)
  }

  lemma StillOpen(g: EdgeGraph, adj: Adjacency, open: seq<nat>, used: set<nat>, e: Edge)
    requires Stores(g, adj) && e in g.edge_list && AllOpen(g, open, used) && e.v_start in open
    ensures AllOpen(g, Emplace(open, e.v_end), used + {e.v_start, e.v_end})
    ensures used + {e.v_start, e.v_end} == used + {e.v_end}
  {
    hide Stores, Emplace;
    EdgeEnds(g, adj, e);
    EmplaceMembers(open, e.v_end);
  }

  lemma StartOpen(g: EdgeGraph, adj: Adjacency, e: Edge)
    requires Stores(g, adj) && e in g.edge_list
    ensures AllOpen(g, Ends(e), {e.v_start, e.v_end})
  {
    hide Stores, Emplace;
    EdgeEnds(g, adj, e);
    EmplaceMembers([], e.v_start);
    EmplaceMembers(Emplace([], e.v_start), e.v_end);
  }

  lemma OpenFacts(g: EdgeGraph, open: seq<nat>, used: set<nat>)
    requires AllOpen(g, open, used)
    ensures StrictlyIncreasing(open) && forall v :: v in open ==> v in g.v_table
  {
  }

  lemma CandidateEdge(g: EdgeGraph, adj: Adjacency, open: seq<nat>, used: set<nat>, c: nat)
    requires Stores(g, adj) && AllOpen(g, open, used) && c < |Candidates(g, open, used)|
    ensures var idx := Candidates(g, open, used)[c];
            && idx < |g.edge_list| && g.edge_list[idx] in g.edge_list && IsCandidate(g, open, used, idx)
            && g.edge_list[idx].v_start in open
  {
    CandidatesExact(g, adj, open, used);
    assert Candidates(g, open, used)[c] in Candidates(g, open, used);
  }

  lemma BranchIs(g: EdgeGraph, e1: Edge, n: Nodes, open: seq<nat>, used: set<nat>, j: nat, p: real, c: nat)
    requires j < 2 && c < |Candidates(g, open, used)| && Candidates(g, open, used)[c] < |g.edge_list|
    ensures var cand := Candidates(g, open, used);
            && CliqueStep(g, e1, n, open, used, j, p) == Uniform(CliqueBranches(g, e1, n, open, used, j, p, cand))
            && CliqueBranches(g, e1, n, open, used, j, p, cand)[c]
               == CliqueNext(g, e1, n, open, used, j, Weigh(p, |cand|), g.edge_list[cand[c]])
  {
    hide Candidates, Emplace, Weigh, Closes, CliqueNext;
  }

  lemma NextIs(g: EdgeGraph, e1: Edge, n: Nodes, open: seq<nat>, used: set<nat>, j: nat, p: real, e: Edge)
    requires j < 2
    ensures var n' := Drawn(n, e1, j, e);
            CliqueNext(g, e1, n, open, used, j, p, e)
            == if j == 0 && !Linked(g, n'.node1, n'.node3) then Return(0.0)
               else CliqueStep(g, e1, n', Emplace(open, e.v_end), used + {e.v_start, e.v_end}, j + 1, p)
  {
    hide Emplace, Linked, Drawn;
  }

  lemma DeadEnd(g: EdgeGraph, e1: Edge, n: Nodes, open: seq<nat>, used: set<nat>, j: nat, p: real)
    requires j < 2 && |Candidates(g, open, used)| == 0
    ensures CliqueStep(g, e1, n, open, used, j, p) == Return(0.0)
  {
  }

  lemma RunEnds(g: EdgeGraph, e1: Edge, n: Nodes, open: seq<nat>, used: set<nat>, p: real)
    ensures CliqueStep(g, e1, n, open, used, 2, p) == Return(if Closes(g, n) then p else 0.0)
  {
  }

  lemma FirstBranch(g: EdgeGraph, c: nat)
    requires c < |g.edge_list|
    ensures var e := g.edge_list[c];
            Reaches(CliqueTree(g), [Outcome(|g.edge_list|, c)],
                    CliqueStep(g, e, NoNodes(), Ends(e), {e.v_start, e.v_end}, 0, |g.edge_list| as real))
  {
    hide CliqueStep, Ends;
    ReachesBranch(CliqueTree(g), [], CliqueTree(g).branches, c);
    assert [] + [Outcome(|g.edge_list|, c)] == [Outcome(|g.edge_list|, c)];
  }

  lemma ClosesIs(g: EdgeGraph, adj: Adjacency, n: Nodes)
    requires Stores(g, adj)
    ensures Closes(g, n) <==>
            (n.node3_ != n.node1 ==> Adj(adj, n.node1, n.node4))
            && (n.node3_ != n.node2 ==> Adj(adj, n.node2, n.node4))
            && (n.node3_ != n.node3 ==> Adj(adj, n.node3, n.node4))
  {
    hide Stores, Linked;
    LinkedIsAdj(g, adj, n.node1, n.node4);
    LinkedIsAdj(g, adj, n.node2, n.node4);
    LinkedIsAdj(g, adj, n.node3, n.node4);
  }

  /** The vertex variables before extension j. */
  ghost predicate NodesOpen(g: EdgeGraph, n: Nodes, j: nat) {
    j > 0 ==> n.node1 in g.v_table && n.node2 in g.v_table && n.node3 in g.v_table
  }

  lemma NodesStayOpen(g: EdgeGraph, adj: Adjacency, n: Nodes, e1: Edge, j: nat, e: Edge)
    requires Stores(g, adj) && e1 in g.edge_list && e in g.edge_list && NodesOpen(g, n, j)
    ensures NodesOpen(g, Drawn(n, e1, j, e), j + 1)
    ensures Drawn(n, e1, j, e).node1 in g.v_table
  {
    hide Stores;
    EdgeEnds(g, adj, e1);
    EdgeEnds(g, adj, e);
  }

  lemma NodesAllOpen(g: EdgeGraph, n: Nodes)
    requires NodesOpen(g, n, 2)
    ensures n.node1 in g.v_table && n.node2 in g.v_table && n.node3 in g.v_table
  {
  }

  lemma NodesStartOpen(g: EdgeGraph)
    ensures NodesOpen(g, NoNodes(), 0)
  {
  }

  /** The sampler: one edge of the list, then two extensions. */
  method CliqueSampler(g: EdgeGraph, ghost adj: Adjacency, engine: Engine) returns (r: real, ghost draws: seq<Outcome>)
    requires Stores(g, adj) && g.edge_list != []
    modifies engine
    ensures engine.drawn == old(engine.drawn) + draws && Runs(CliqueTree(g), draws, r)
  {
    hide *;
    var last := engine.Next(|g.edge_list|);
    var e1 := g.edge_list[last];
    draws := [Outcome(|g.edge_list|, last)];
    ghost var tree := CliqueTree(g);
    FirstBranch(g, last);
    StartOpen(g, adj, e1);
    NodesStartOpen(g);
    var used := {e1.v_start, e1.v_end};
    var open := Ends(e1);
    var n := NoNodes();
    r := |g.edge_list| as real;
    for j := 0 to 2
      invariant engine.drawn == old(engine.drawn) + draws
      invariant AllOpen(g, open, used) && NodesOpen(g, n, j)
      invariant Reaches(tree, draws, CliqueStep(g, e1, n, open, used, j, r))
    {
      OpenFacts(g, open, used);
      var found, total := CollectCandidates(g, adj, open, used);
      ghost var p := r;
      r := Weigh(r, total);
      if total == 0 {
        DeadEnd(g, e1, n, open, used, j, p);
        RunDone(tree, draws, 0.0);
        r := 0.0;
        return;
      }
      var c := engine.Next(total);
      CandidateEdge(g, adj, open, used, c);
      BranchIs(g, e1, n, open, used, j, p, c);
      ReachesBranch(tree, draws, CliqueBranches(g, e1, n, open, used, j, p, found), c);
      var e := g.edge_list[found[c]];
      draws := draws + [Outcome(total, c)];
      NextIs(g, e1, n, open, used, j, r, e);
      NodesStayOpen(g, adj, n, e1, j, e);
      StillOpen(g, adj, open, used, e);
      n := Drawn(n, e1, j, e);
      if j == 0 {
        var closed := NeighborTest(g, adj, n.node1, n.node3);
        LinkedIsAdj(g, adj, n.node1, n.node3);
        if !closed {
          RunDone(tree, draws, 0.0);
          r := 0.0;
          return;
        }
      }
      used := used + {e.v_start, e.v_end};
      open := Emplace(open, e.v_end);
    }
    RunEnds(g, e1, n, open, used, r);
    NodesAllOpen(g, n);
    ClosesIs(g, adj, n);
    RunDone(tree, draws, if Closes(g, n) then r else 0.0);
    if n.node3_ != n.node1 {
      var closed := NeighborTest(g, adj, n.node1, n.node4);
      if !closed { return 0.0, draws; }
    }
    if n.node3_ != n.node2 {
      var closed := NeighborTest(g, adj, n.node2, n.node4);
      if !closed { return 0.0, draws; }
    }
    if n.node3_ != n.node3 {
      var closed := NeighborTest(g, adj, n.node3, n.node4);
      if !closed { return 0.0, draws; }
    }
  }
}
