/** Growing a path edge by edge at its two ends, as the estimators for chains, houses and joined triangles do
    (arya_asap/graph_counting/src/ASAP_single_machine/estimating.h:621-653, 788-850, 894-963). */
module AsapGrowth {
  import opened Counting
  import opened CsrGraph
  import opened Draws
  import opened Paths
  import opened Asap

  /** The path after drawing e at one of the ends of q. */
  function Extended(q: seq<nat>, e: Edge): seq<nat> {
    if e.v_start == First(q) then [e.v_end] + q else q + [e.v_end]
  }

  /** The rest of a run with `steps` edges still to draw, weight p so far; at the end the path must pass the test. */
  ghost function GrowStep(g: EdgeGraph, chain: seq<nat>, open: seq<nat>, used: set<nat>, steps: nat, p: real,
                          close: seq<nat> -> bool): Draw
    decreases steps, 1
  {
    if steps == 0 then Return(if close(chain) then p else 0.0) else
      var cand := Candidates(g, open, used);
      if cand == [] then Return(0.0)
      else Uniform(GrowBranches(g, chain, open, used, steps, p, close, cand))
  }

  /** The run after drawing edge e: its start is closed, its end opened. */
  ghost function GrowNext(g: EdgeGraph, chain: seq<nat>, open: seq<nat>, used: set<nat>, steps: nat, p: real,
                          close: seq<nat> -> bool, e: Edge): Draw
    requires steps > 0
    decreases steps - 1, 2
  {
    GrowStep(g, Extended(chain, e), Emplace(Erase(open, e.v_start), e.v_end), used + {e.v_start, e.v_end}, steps - 1, p,
             close)
  }

  ghost function GrowBranches(g: EdgeGraph, chain: seq<nat>, open: seq<nat>, used: set<nat>, steps: nat, p: real,
                              close: seq<nat> -> bool, cand: seq<nat>): (bs: seq<Draw>)
    requires steps > 0
    ensures |bs| == |cand|
    decreases steps, 0
  {
    seq(|cand|, i requires 0 <= i < |cand| =>
      if cand[i] < |g.edge_list| then
        GrowNext(g, chain, open, used, steps, Weigh(p, |cand|), close, g.edge_list[cand[i]])
      else Return(0.0))
  }

  /** What a path is worth under a test. */
  ghost function Worth(close: seq<nat> -> bool): seq<nat> -> int {
    p => if close(p) then 1 else 0
  }

  // ---------- Following the tree ----------

  lemma OpenInTable(g: EdgeGraph, adj: Adjacency, open: seq<nat>, e: Edge)
    requires Stores(g, adj) && e in g.edge_list && StrictlyIncreasing(open)
    requires forall v :: v in open ==> v in g.v_table
    ensures e.v_start in g.v_table && e.v_end in g.v_table && e.v_end < |adj|
    ensures var open' := Emplace(Erase(open, e.v_start), e.v_end);
            StrictlyIncreasing(open') && forall v :: v in open' ==> v in g.v_table
  {
    hide Stores, Emplace, Erase;
    EdgeEnds(g, adj, e);
    EraseMembers(open, e.v_start);
    EmplaceMembers(Erase(open, e.v_start), e.v_end);
  }

  lemma EndsInTable(g: EdgeGraph, adj: Adjacency, e: Edge)
    requires Stores(g, adj) && e in g.edge_list
    ensures e.v_start in g.v_table && e.v_end in g.v_table
    ensures StrictlyIncreasing(Ends(e)) && forall v :: v in Ends(e) <==> v == e.v_start || v == e.v_end
  {
    OpenInTable(g, adj, [], e);
    EmplaceMembers([], e.v_start);
    EmplaceMembers(Emplace([], e.v_start), e.v_end);
  }

  lemma RunEnds(g: EdgeGraph, q: seq<nat>, open: seq<nat>, used: set<nat>, p: real, close: seq<nat> -> bool)
    ensures GrowStep(g, q, open, used, 0, p, close) == Return(if close(q) then p else 0.0)
  {
  }

  lemma DeadEnd(g: EdgeGraph, q: seq<nat>, open: seq<nat>, used: set<nat>, steps: nat, p: real,
                close: seq<nat> -> bool)
    requires steps > 0 && |Candidates(g, open, used)| == 0
    ensures GrowStep(g, q, open, used, steps, p, close) == Return(0.0)
  {
  }

  lemma CandidateEdge(g: EdgeGraph, adj: Adjacency, open: seq<nat>, used: set<nat>, c: nat)
    requires Stores(g, adj) && StrictlyIncreasing(open) && c < |Candidates(g, open, used)|
    ensures var idx := Candidates(g, open, used)[c];
            idx < |g.edge_list| && g.edge_list[idx] in g.edge_list && IsCandidate(g, open, used, idx)
  {
    CandidatesExact(g, adj, open, used);
    assert Candidates(g, open, used)[c] in Candidates(g, open, used);
  }

  /** Drawing c leads to the step after that candidate's edge. */
  lemma BranchIs(g: EdgeGraph, q: seq<nat>, open: seq<nat>, used: set<nat>, steps: nat, p: real,
                 close: seq<nat> -> bool, c: nat)
    requires steps > 0 && c < |Candidates(g, open, used)| && Candidates(g, open, used)[c] < |g.edge_list|
    ensures var cand := Candidates(g, open, used);
            var e := g.edge_list[cand[c]];
            && GrowStep(g, q, open, used, steps, p, close)
               == Uniform(GrowBranches(g, q, open, used, steps, p, close, cand))
            && GrowBranches(g, q, open, used, steps, p, close, cand)[c]
               == GrowStep(g, Extended(q, e), Emplace(Erase(open, e.v_start), e.v_end),
                        used + {e.v_start, e.v_end}, steps - 1, Weigh(p, |cand|), close)
  {
    hide Candidates, Emplace, Erase, Weigh;
  }

  lemma StepBranch(g: EdgeGraph, q: seq<nat>, open: seq<nat>, used: set<nat>, steps: nat, p: real,
                   close: seq<nat> -> bool, tree: Draw, draws: seq<Outcome>, c: nat)
    requires steps > 0 && Reaches(tree, draws, GrowStep(g, q, open, used, steps, p, close))
    requires c < |Candidates(g, open, used)| && Candidates(g, open, used)[c] < |g.edge_list|
    ensures var cand := Candidates(g, open, used);
            var e := g.edge_list[cand[c]];
            Reaches(tree, draws + [Outcome(|cand|, c)],
                    GrowStep(g, Extended(q, e), Emplace(Erase(open, e.v_start), e.v_end),
                        used + {e.v_start, e.v_end}, steps - 1, Weigh(p, |cand|), close))
  {
    hide *;
    BranchIs(g, q, open, used, steps, p, close, c);
    ReachesBranch(tree, draws, GrowBranches(g, q, open, used, steps, p, close, Candidates(g, open, used)), c);
  }

  // ---------- The mean ----------

  /** The sampler has drawn the path q: its two ends are open. */
  ghost predicate Drew(adj: Adjacency, q: seq<nat>, open: seq<nat>, used: set<nat>) {
    && |q| >= 2 && q in PathsOf(adj, |q|)
    && StrictlyIncreasing(open) && (forall v :: v in open <==> v == First(q) || v == Last(q))
    && used == Elements(q)
  }

  lemma CandidateGrows(g: EdgeGraph, adj: Adjacency, q: seq<nat>, open: seq<nat>, used: set<nat>, idx: nat)
    requires Stores(g, adj) && Drew(adj, q, open, used) && IsCandidate(g, open, used, idx)
    ensures Extended(q, g.edge_list[idx]) in Grown(adj, q)
  {
    var e := g.edge_list[idx];
    var p := Extended(q, e);
    var m := |q|;
    PathsMember(adj, m, q);
    PathsMember(adj, m + 1, p);
    assert Adj(adj, e.v_start, e.v_end) && Adj(adj, e.v_end, e.v_start);
    assert e.v_end !in q;
    if e.v_start == First(q) {
      assert p[1..] == q;
      NoDuplicatesConcat([e.v_end], q);
      forall i | 0 <= i < m ensures Adj(adj, p[i], p[i + 1]) {
        if i > 0 { assert Adj(adj, q[i - 1], q[i]); }
      }
    } else {
      assert p[..m] == q;
      NoDuplicatesConcat(q, [e.v_end]);
      forall i | 0 <= i < m ensures Adj(adj, p[i], p[i + 1]) {
        if i < m - 1 { assert Adj(adj, q[i], q[i + 1]); }
      }
    }
  }

  lemma EndsDiffer(adj: Adjacency, q: seq<nat>)
    requires IsPath(adj, q) && |q| >= 2
    ensures First(q) != Last(q)
  {
  }

  lemma StillDrew(g: EdgeGraph, adj: Adjacency, q: seq<nat>, open: seq<nat>, used: set<nat>, idx: nat)
    requires Stores(g, adj) && Drew(adj, q, open, used) && IsCandidate(g, open, used, idx)
    ensures var e := g.edge_list[idx];
            Drew(adj, Extended(q, e), Emplace(Erase(open, e.v_start), e.v_end), used + {e.v_start, e.v_end})
  {
    hide Stores, PathsOf, IsPath, Emplace, Erase;
    CandidateGrows(g, adj, q, open, used, idx);
    var e := g.edge_list[idx];
    var p := Extended(q, e);
    PathsMember(adj, |q|, q);
    EndsDiffer(adj, q);
    EraseMembers(open, e.v_start);
    EmplaceMembers(Erase(open, e.v_start), e.v_end);
    assert e.v_start in q;
    assert Elements(p) == used + {e.v_start, e.v_end};
  }

  lemma GrownHasCandidate(g: EdgeGraph, adj: Adjacency, q: seq<nat>, open: seq<nat>, used: set<nat>, p: seq<nat>)
    returns (idx: nat)
    requires Stores(g, adj) && Drew(adj, q, open, used) && p in Grown(adj, q)
    ensures IsCandidate(g, open, used, idx) && Extended(q, g.edge_list[idx]) == p
  {
    var m := |q|;
    PathsMember(adj, m, q);
    PathsMember(adj, m + 1, p);
    assert Adj(adj, p[0], p[1]) && Adj(adj, p[m - 1], p[m]);
    var e: Edge;
    hide Adj, PathsOf, IsPath;
    if p[..m] == q {
      e := Edge(p[m - 1], p[m]);
      assert p == q + [p[m]] && q[m - 1] == p[m - 1];
    } else {
      e := Edge(p[1], p[0]);
      assert p == [p[0]] + q;
    }
    assert e in g.edge_list;
    idx :| 0 <= idx < |g.edge_list| && g.edge_list[idx] == e;
  }

  lemma OneCandidateEach(g: EdgeGraph, adj: Adjacency, q: seq<nat>, open: seq<nat>, used: set<nat>, idx: nat, idx': nat)
    requires Stores(g, adj) && Drew(adj, q, open, used)
    requires IsCandidate(g, open, used, idx) && IsCandidate(g, open, used, idx')
    requires Extended(q, g.edge_list[idx]) == Extended(q, g.edge_list[idx'])
    ensures idx == idx'
  {
    var e, e' := g.edge_list[idx], g.edge_list[idx'];
    var p := Extended(q, e);
    assert e.v_end !in q && e'.v_end !in q;
    assert q[0] in q && q[|q| - 1] in q;
    if e.v_start == First(q) {
      assert p[0] == e.v_end;
    } else {
      assert p[|q|] == e.v_end;
    }
    if e'.v_start == First(q) {
      assert p[0] == e'.v_end;
    } else {
      assert p[|q|] == e'.v_end && p[0] == q[0];
    }
    assert e == e';
  }

  ghost function Via(g: EdgeGraph, q: seq<nat>): nat -> seq<nat> {
    (idx: nat) => if idx < |g.edge_list| then Extended(q, g.edge_list[idx]) else []
  }

  ghost function WaysVia(g: EdgeGraph, adj: Adjacency, q: seq<nat>, s: nat, f: seq<nat> -> int): nat -> int {
    (idx: nat) => Ways(adj, Via(g, q)(idx), s, f)
  }

  lemma DrewSorted(adj: Adjacency, q: seq<nat>, open: seq<nat>, used: set<nat>)
    requires Drew(adj, q, open, used)
    ensures StrictlyIncreasing(open)
  {
  }

  lemma ViaIs(g: EdgeGraph, adj: Adjacency, q: seq<nat>, open: seq<nat>, used: set<nat>, idx: nat, s: nat,
              f: seq<nat> -> int)
    requires IsCandidate(g, open, used, idx)
    ensures idx < |g.edge_list| && Via(g, q)(idx) == Extended(q, g.edge_list[idx])
    ensures WaysVia(g, adj, q, s, f)(idx) == WaysFor(adj, s, f)(Via(g, q)(idx))
            == Ways(adj, Extended(q, g.edge_list[idx]), s, f)
  {
  }

  /** The candidates are the ways to grow q. */
  lemma CandidatesGrow(g: EdgeGraph, adj: Adjacency, q: seq<nat>, open: seq<nat>, used: set<nat>, s: nat,
                       f: seq<nat> -> int)
    requires Stores(g, adj) && Drew(adj, q, open, used)
    ensures Sum(Elements(Candidates(g, open, used)), WaysVia(g, adj, q, s, f)) == Ways(adj, q, s + 1, f)
  {
    hide *;
    var cand := Elements(Candidates(g, open, used));
    forall idx ensures idx in cand <==> IsCandidate(g, open, used, idx) {
      DrewSorted(adj, q, open, used);
      CandidatesExact(g, adj, open, used);
      ElementsMember(Candidates(g, open, used), idx);
    }
    forall idx | idx in cand
      ensures Via(g, q)(idx) in Grown(adj, q) && WaysVia(g, adj, q, s, f)(idx) == WaysFor(adj, s, f)(Via(g, q)(idx))
    {
      ViaIs(g, adj, q, open, used, idx, s, f);
      CandidateGrows(g, adj, q, open, used, idx);
    }
    forall idx, idx' | idx in cand && idx' in cand && Via(g, q)(idx) == Via(g, q)(idx') ensures idx == idx' {
      ViaIs(g, adj, q, open, used, idx, s, f);
      ViaIs(g, adj, q, open, used, idx', s, f);
      OneCandidateEach(g, adj, q, open, used, idx, idx');
    }
    forall p | p in Grown(adj, q) ensures exists idx :: idx in cand && Via(g, q)(idx) == p {
      var idx := GrownHasCandidate(g, adj, q, open, used, p);
      ViaIs(g, adj, q, open, used, idx, s, f);
      assert idx in cand;
    }
    SumBijection(cand, Grown(adj, q), Via(g, q), WaysVia(g, adj, q, s, f), WaysFor(adj, s, f));
    WaysAre(adj, q, s, f);
  }

  lemma MeanEnds(g: EdgeGraph, adj: Adjacency, q: seq<nat>, open: seq<nat>, used: set<nat>, p: real,
                 close: seq<nat> -> bool)
    ensures Mean(GrowStep(g, q, open, used, 0, p, close)) == Weigh(p, Ways(adj, q, 0, Worth(close)))
  {
  }

  lemma MeanDeadEnd(g: EdgeGraph, q: seq<nat>, open: seq<nat>, used: set<nat>, steps: nat, p: real,
                    close: seq<nat> -> bool, f: nat -> int)
    requires steps > 0 && Candidates(g, open, used) == []
    ensures Mean(GrowStep(g, q, open, used, steps, p, close)) == Weigh(p, ListSum(Candidates(g, open, used), f))
  {
  }

  /** From the path q, the mean of the rest is p times the number of ways to grow q to a path that passes the test. */
  lemma {:induction false} StepMean(g: EdgeGraph, adj: Adjacency, q: seq<nat>, open: seq<nat>, used: set<nat>,
                                    steps: nat, p: real, close: seq<nat> -> bool)
    requires Stores(g, adj) && Drew(adj, q, open, used)
    ensures Mean(GrowStep(g, q, open, used, steps, p, close)) == Weigh(p, Ways(adj, q, steps, Worth(close)))
    decreases steps
  {
    hide *;
    if steps == 0 {
      MeanEnds(g, adj, q, open, used, p, close);
    } else {
      var cand, f := Candidates(g, open, used), Worth(close);
      var via := WaysVia(g, adj, q, steps - 1, f);
      DrewSorted(adj, q, open, used);
      CandidatesExact(g, adj, open, used);
      CandidatesGrow(g, adj, q, open, used, steps - 1, f);
      ListSumIsSum(cand, via);
      if cand == [] {
        MeanDeadEnd(g, q, open, used, steps, p, close, via);
      } else {
        var branches := GrowBranches(g, q, open, used, steps, p, close, cand);
        forall i | 0 <= i < |cand| ensures Mean(branches[i]) == Weigh(Weigh(p, |cand|), via(cand[i])) {
          CandidateEdge(g, adj, open, used, i);
          BranchIs(g, q, open, used, steps, p, close, i);
          ViaIs(g, adj, q, open, used, cand[i], steps - 1, f);
          StillDrew(g, adj, q, open, used, cand[i]);
          var e := g.edge_list[cand[i]];
          StepMean(g, adj, Extended(q, e), Emplace(Erase(open, e.v_start), e.v_end), used + {e.v_start, e.v_end},
                   steps - 1, Weigh(p, |cand|), close);
        }
        CandidateEdge(g, adj, open, used, 0);
        BranchIs(g, q, open, used, steps, p, close, 0);
        UniformMean(branches, cand, via, p);
      }
    }
  }

  lemma EdgeIsPath(g: EdgeGraph, adj: Adjacency, e: Edge)
    requires Stores(g, adj)
    ensures e in g.edge_list <==> EndsOf(e) in PathsOf(adj, 2)
  {
    var q := EndsOf(e);
    PathsMember(adj, 2, q);
    if e in g.edge_list {
      assert Adj(adj, q[0], q[1]) && Adj(adj, q[1], q[0]);
    }
    if q in PathsOf(adj, 2) {
      assert Adj(adj, q[0], q[1]);
    }
  }

  lemma StartDrew(g: EdgeGraph, adj: Adjacency, e: Edge)
    requires Stores(g, adj) && e in g.edge_list
    ensures Drew(adj, EndsOf(e), Ends(e), {e.v_start, e.v_end})
  {
    hide Stores, Ends, PathsOf;
    EdgeIsPath(g, adj, e);
    EndsInTable(g, adj, e);
  }

  /** Summing over the entries of the edge list is summing over the paths of two vertices. */
  lemma SumOverStarts(g: EdgeGraph, adj: Adjacency, f: seq<nat> -> int, fe: Edge -> int)
    requires Stores(g, adj) && forall e :: fe(e) == f(EndsOf(e))
    ensures Sum(Elements(g.edge_list), fe) == Sum(PathsOf(adj, 2), f)
  {
    hide *;
    forall e ensures e in g.edge_list <==> EndsOf(e) in PathsOf(adj, 2) {
      EdgeIsPath(g, adj, e);
    }
    forall p | p in PathsOf(adj, 2) ensures |p| == 2 {
      PathsMember(adj, 2, p);
    }
    SumOverEdges(g, PathsOf(adj, 2), f, fe);
  }
}
