/** The estimators for houses and for joined triangles: their exact means are 16 for each house and 128 for each pair of
    joined triangles (arya_asap/graph_counting/src/ASAP_single_machine/estimating.h:766-971). */
module AsapShapes {
  import opened Counting
  import opened CsrGraph
  import opened Draws
  import opened Paths
  import opened Asap
  import opened AsapGrowth
  import Houses
  import JoinedTriangles

  datatype Shape = House | TwoTriangles

  /** How many edges are drawn after the first. */
  function Extensions(shape: Shape): nat {
    match shape
    case House => 3
    case TwoTriangles => 4
  }

  ghost predicate LinkedAt(g: EdgeGraph, q: seq<nat>, i: nat, j: nat) {
    i < |q| && j < |q| && Linked(g, q[i], q[j])
  }

  /** The tests at the end: a house is closed to a cycle, two triangles are closed each. */
  ghost function Closing(g: EdgeGraph, shape: Shape): seq<nat> -> bool {
    match shape
    case House => (q => LinkedAt(g, q, 0, 4))
    case TwoTriangles => (q => LinkedAt(g, q, 0, 2) && LinkedAt(g, q, 5, 3))
  }

  /** The path after the first extension e of the edge e1: e in the middle, the other end of e1 first. */
  function FirstChain(e1: Edge, e: Edge): seq<nat> {
    [if e.v_start == e1.v_start then e1.v_end else e1.v_start, e.v_start, e.v_end]
  }

  /** After the first extension: for a house, the path must close to a triangle at once. */
  ghost function FirstNext(g: EdgeGraph, shape: Shape, e1: Edge, p: real, e: Edge): Draw {
    var q := FirstChain(e1, e);
    if shape.House? && !Linked(g, q[0], q[2]) then Return(0.0)
    else
      GrowStep(g, q, Emplace(Erase(Ends(e1), e.v_start), e.v_end), {e1.v_start, e1.v_end} + {e.v_start, e.v_end},
               Extensions(shape) - 1, p, Closing(g, shape))
  }

  ghost function FirstBranches(g: EdgeGraph, shape: Shape, e1: Edge, p: real, cand: seq<nat>): (bs: seq<Draw>)
    ensures |bs| == |cand|
  {
    seq(|cand|, i requires 0 <= i < |cand| =>
      if cand[i] < |g.edge_list| then FirstNext(g, shape, e1, Weigh(p, |cand|), g.edge_list[cand[i]]) else Return(0.0))
  }

  ghost function FirstCandidates(g: EdgeGraph, e1: Edge): seq<nat> {
    Candidates(g, Ends(e1), {e1.v_start, e1.v_end})
  }

  ghost function FirstStep(g: EdgeGraph, shape: Shape, e1: Edge, p: real): Draw {
    var cand := FirstCandidates(g, e1);
    if cand == [] then Return(0.0) else Uniform(FirstBranches(g, shape, e1, p, cand))
  }

  ghost function ShapeStart(g: EdgeGraph, shape: Shape, e1: Edge): Draw {
    FirstStep(g, shape, e1, |g.edge_list| as real)
  }

  /** The whole sampler. */
  ghost function ShapeTree(g: EdgeGraph, shape: Shape): Draw {
    Uniform(seq(|g.edge_list|, i requires 0 <= i < |g.edge_list| => ShapeStart(g, shape, g.edge_list[i])))
  }

  // ---------- The program follows the tree ----------

  lemma StartBranch(g: EdgeGraph, shape: Shape, c: nat)
    requires c < |g.edge_list|
    ensures Reaches(ShapeTree(g, shape), [Outcome(|g.edge_list|, c)],
                    FirstStep(g, shape, g.edge_list[c], |g.edge_list| as real))
  {
    hide FirstStep;
    ReachesBranch(ShapeTree(g, shape), [], ShapeTree(g, shape).branches, c);
    assert [] + [Outcome(|g.edge_list|, c)] == [Outcome(|g.edge_list|, c)];
  }

  lemma FirstDeadEnd(g: EdgeGraph, shape: Shape, e1: Edge, p: real)
    requires |FirstCandidates(g, e1)| == 0
    ensures FirstStep(g, shape, e1, p) == Return(0.0)
  {
  }

  lemma FirstBranchIs(g: EdgeGraph, shape: Shape, e1: Edge, p: real, c: nat)
    requires c < |FirstCandidates(g, e1)| && FirstCandidates(g, e1)[c] < |g.edge_list|
    ensures var cand := FirstCandidates(g, e1);
            && FirstStep(g, shape, e1, p) == Uniform(FirstBranches(g, shape, e1, p, cand))
            && FirstBranches(g, shape, e1, p, cand)[c]
               == FirstNext(g, shape, e1, Weigh(p, |cand|), g.edge_list[cand[c]])
  {
    hide FirstCandidates, FirstNext, Weigh;
  }

  lemma FirstBranch(g: EdgeGraph, shape: Shape, e1: Edge, p: real, tree: Draw, draws: seq<Outcome>, c: nat)
    requires Reaches(tree, draws, FirstStep(g, shape, e1, p))
    requires c < |FirstCandidates(g, e1)| && FirstCandidates(g, e1)[c] < |g.edge_list|
    ensures var cand := FirstCandidates(g, e1);
            Reaches(tree, draws + [Outcome(|cand|, c)],
                    FirstNext(g, shape, e1, Weigh(p, |cand|), g.edge_list[cand[c]]))
  {
    hide *;
    FirstBranchIs(g, shape, e1, p, c);
    ReachesBranch(tree, draws, FirstBranches(g, shape, e1, p, FirstCandidates(g, e1)), c);
  }

  lemma FirstNextIs(g: EdgeGraph, shape: Shape, e1: Edge, p: real, e: Edge)
    ensures var q := FirstChain(e1, e);
            && |q| == 3
            && FirstNext(g, shape, e1, p, e)
               == if shape.House? && !Linked(g, q[0], q[2]) then Return(0.0)
                  else GrowStep(g, q, Emplace(Erase(Ends(e1), e.v_start), e.v_end),
                                {e1.v_start, e1.v_end} + {e.v_start, e.v_end}, Extensions(shape) - 1, p,
                                Closing(g, shape))
  {
    hide GrowStep, Linked, Ends, Emplace, Erase, Closing;
  }

  lemma FirstCandidatesAre(g: EdgeGraph, e1: Edge)
    ensures FirstCandidates(g, e1) == Candidates(g, Ends(e1), {e1.v_start, e1.v_end})
  {
  }

  lemma ChainInTable(g: EdgeGraph, adj: Adjacency, e1: Edge, e: Edge)
    requires Stores(g, adj) && e1 in g.edge_list && e in g.edge_list
    ensures |FirstChain(e1, e)| == 3 && forall v :: v in FirstChain(e1, e) ==> v in g.v_table
  {
    hide Stores;
    EdgeEnds(g, adj, e1);
    EdgeEnds(g, adj, e);
  }

  lemma LongerInTable(g: EdgeGraph, q: seq<nat>, e: Edge)
    requires (forall v :: v in q ==> v in g.v_table) && e.v_end in g.v_table
    ensures |Extended(q, e)| == |q| + 1 && forall v :: v in Extended(q, e) ==> v in g.v_table
  {
  }

  lemma ClosingIs(g: EdgeGraph, adj: Adjacency, shape: Shape, q: seq<nat>)
    requires Stores(g, adj) && |q| == Extensions(shape) + 2
    ensures shape.House? ==> (Closing(g, shape)(q) <==> Adj(adj, q[0], q[4]))
    ensures shape.TwoTriangles? ==> (Closing(g, shape)(q) <==> Adj(adj, q[0], q[2]) && Adj(adj, q[5], q[3]))
  {
    hide Stores, Linked;
    if shape.House? {
      LinkedIsAdj(g, adj, q[0], q[4]);
    } else {
      LinkedIsAdj(g, adj, q[0], q[2]);
      LinkedIsAdj(g, adj, q[5], q[3]);
    }
  }

  lemma ItemInTable(g: EdgeGraph, q: seq<nat>, i: nat)
    requires (forall v :: v in q ==> v in g.v_table) && i < |q|
    ensures q[i] in g.v_table
  {
  }

  lemma ExtensionsAre(shape: Shape)
    ensures Extensions(shape) == if shape.House? then 3 else 4
  {
  }

  /** The sampler: one edge of the list, the extensions at the two open ends, then the tests. */
  method ShapeSampler(g: EdgeGraph, ghost adj: Adjacency, shape: Shape, engine: Engine)
    returns (r: real, ghost draws: seq<Outcome>)
    requires Stores(g, adj) && g.edge_list != []
    modifies engine
    ensures engine.drawn == old(engine.drawn) + draws && Runs(ShapeTree(g, shape), draws, r)
  {
    hide *;
    var last := engine.Next(|g.edge_list|);
    var e1 := g.edge_list[last];
    draws := [Outcome(|g.edge_list|, last)];
    ghost var tree, test := ShapeTree(g, shape), Closing(g, shape);
    StartBranch(g, shape, last);
    FirstCandidatesAre(g, e1);
    EndsInTable(g, adj, e1);
    var used, open := {e1.v_start, e1.v_end}, Ends(e1);
    var chain: seq<nat> := [];
    var n := Extensions(shape);
    ExtensionsAre(shape);
    r := |g.edge_list| as real;
    for j := 0 to n
      invariant engine.drawn == old(engine.drawn) + draws
      invariant StrictlyIncreasing(open) && forall v :: v in open ==> v in g.v_table
      invariant forall v :: v in chain ==> v in g.v_table
      invariant j == 0 ==> open == Ends(e1) && used == {e1.v_start, e1.v_end}
      invariant j == 0 ==> Reaches(tree, draws, FirstStep(g, shape, e1, r))
      invariant j > 0 ==> |chain| == j + 2 && Reaches(tree, draws, GrowStep(g, chain, open, used, n - j, r, test))
    {
      var found, total := CollectCandidates(g, adj, open, used);
      ghost var p := r;
      r := Weigh(r, total);
      if total == 0 {
        if j == 0 {
          FirstDeadEnd(g, shape, e1, p);
        } else {
          DeadEnd(g, chain, open, used, n - j, p, test);
        }
        RunDone(tree, draws, 0.0);
        r := 0.0;
        return;
      }
      var c := engine.Next(total);
      CandidateEdge(g, adj, open, used, c);
      var e := g.edge_list[found[c]];
      OpenInTable(g, adj, open, e);
      if j == 0 {
        FirstBranch(g, shape, e1, p, tree, draws, c);
        FirstNextIs(g, shape, e1, r, e);
        ChainInTable(g, adj, e1, e);
        chain := FirstChain(e1, e);
        draws := draws + [Outcome(total, c)];
        if shape.House? {
          ItemInTable(g, chain, 0);
          LinkedIsAdj(g, adj, chain[0], chain[2]);
          var closed := NeighborTest(g, adj, chain[0], chain[2]);
          if !closed {
            RunDone(tree, draws, 0.0);
            r := 0.0;
            return;
          }
        }
      } else {
        StepBranch(g, chain, open, used, n - j, p, test, tree, draws, c);
        LongerInTable(g, chain, e);
        chain := Extended(chain, e);
        draws := draws + [Outcome(total, c)];
      }
      used := used + {e.v_start, e.v_end};
      open := Emplace(Erase(open, e.v_start), e.v_end);
    }
    RunEnds(g, chain, open, used, r, test);
    ClosingIs(g, adj, shape, chain);
    RunDone(tree, draws, if test(chain) then r else 0.0);
    ItemInTable(g, chain, 0);
    if shape.House? {
      var closed := NeighborTest(g, adj, chain[0], chain[4]);
      if !closed { return 0.0, draws; }
    } else {
      ItemInTable(g, chain, 5);
      var closed := NeighborTest(g, adj, chain[0], chain[2]);
      if !closed { return 0.0, draws; }
      closed := NeighborTest(g, adj, chain[5], chain[3]);
      if !closed { return 0.0, draws; }
    }
  }

  // ---------- The first extension, on average ----------

  ghost predicate StartsFrom(q: seq<nat>, c: seq<nat>) {
    |q| == 2 && |c| == 3 && {c[0], c[1]} == {q[0], q[1]}
  }

  ghost function StartsRelation(): (seq<nat>, seq<nat>) -> bool {
    (q, c) => StartsFrom(q, c)
  }

  /** The paths of three whose first two vertices are those of q. */
  ghost function StartsOf(adj: Adjacency, q: seq<nat>): set<seq<nat>> {
    Related(q, PathsOf(adj, 3), StartsRelation())
  }

  lemma StartMember(adj: Adjacency, q: seq<nat>, c: seq<nat>)
    ensures c in StartsOf(adj, q) <==> c in PathsOf(adj, 3) && StartsFrom(q, c)
  {
  }

  lemma ThreePath(adj: Adjacency, c: seq<nat>)
    ensures c in PathsOf(adj, 3) <==>
            && |c| == 3 && c[0] < |adj| && c[1] < |adj| && c[2] < |adj|
            && c[0] != c[1] && c[0] != c[2] && c[1] != c[2]
            && Adj(adj, c[0], c[1]) && Adj(adj, c[1], c[2])
  {
    PathsMember(adj, 3, c);
    if c in PathsOf(adj, 3) {
      assert Adj(adj, c[0], c[0 + 1]) && Adj(adj, c[1], c[1 + 1]);
    }
  }

  /** A candidate for the first extension, and the path it gives. */
  lemma FirstGrows(g: EdgeGraph, adj: Adjacency, e1: Edge, idx: nat)
    requires Stores(g, adj) && e1 in g.edge_list && IsCandidate(g, Ends(e1), {e1.v_start, e1.v_end}, idx)
    ensures var c := FirstChain(e1, g.edge_list[idx]);
            && c in StartsOf(adj, EndsOf(e1)) && Elements(c) == {e1.v_start, e1.v_end} + {g.edge_list[idx].v_end}
            && (g.edge_list[idx].v_start == e1.v_start || g.edge_list[idx].v_start == e1.v_end)
  {
    hide Stores, PathsOf, Ends;
    var e := g.edge_list[idx];
    EdgeEnds(g, adj, e1);
    EdgeEnds(g, adj, e);
    EndsInTable(g, adj, e1);
    var c := FirstChain(e1, e);
    ThreePath(adj, c);
    StartMember(adj, EndsOf(e1), c);
  }

  lemma FirstDrew(g: EdgeGraph, adj: Adjacency, e1: Edge, idx: nat)
    requires Stores(g, adj) && e1 in g.edge_list && IsCandidate(g, Ends(e1), {e1.v_start, e1.v_end}, idx)
    ensures var e := g.edge_list[idx];
            Drew(adj, FirstChain(e1, e), Emplace(Erase(Ends(e1), e.v_start), e.v_end),
                 {e1.v_start, e1.v_end} + {e.v_start, e.v_end})
  {
    hide Stores, PathsOf, IsPath, Emplace, Erase, Ends, StartsOf;
    var e := g.edge_list[idx];
    FirstGrows(g, adj, e1, idx);
    var c := FirstChain(e1, e);
    StartMember(adj, EndsOf(e1), c);
    ThreePath(adj, c);
    EndsInTable(g, adj, e1);
    EraseMembers(Ends(e1), e.v_start);
    EmplaceMembers(Erase(Ends(e1), e.v_start), e.v_end);
    assert Elements(c) == {e1.v_start, e1.v_end} + {e.v_start, e.v_end};
  }

  lemma FirstOfPair(a: nat, b: nat, x: nat, y: nat)
    requires {a, b} == {x, y} && a != b
    ensures (b == x && a == y) || (b == y && a == x)
  {
    assert a in {x, y} && b in {x, y} && x in {a, b};
  }

  lemma StartHasCandidate(g: EdgeGraph, adj: Adjacency, e1: Edge, c: seq<nat>) returns (idx: nat)
    requires Stores(g, adj) && e1 in g.edge_list && c in StartsOf(adj, EndsOf(e1))
    ensures IsCandidate(g, Ends(e1), {e1.v_start, e1.v_end}, idx) && FirstChain(e1, g.edge_list[idx]) == c
  {
    hide PathsOf, Ends, StartsOf;
    StartMember(adj, EndsOf(e1), c);
    ThreePath(adj, c);
    EdgeEnds(g, adj, e1);
    EndsInTable(g, adj, e1);
    var e := Edge(c[1], c[2]);
    assert e in g.edge_list;
    idx :| 0 <= idx < |g.edge_list| && g.edge_list[idx] == e;
    FirstOfPair(c[0], c[1], e1.v_start, e1.v_end);
  }

  lemma OneFirstCandidate(g: EdgeGraph, adj: Adjacency, e1: Edge, idx: nat, idx': nat)
    requires Stores(g, adj) && idx < |g.edge_list| && idx' < |g.edge_list|
    requires FirstChain(e1, g.edge_list[idx]) == FirstChain(e1, g.edge_list[idx'])
    ensures idx == idx'
  {
    var e, e' := g.edge_list[idx], g.edge_list[idx'];
    assert FirstChain(e1, e)[1] == e.v_start && FirstChain(e1, e)[2] == e.v_end;
    assert FirstChain(e1, e')[1] == e'.v_start && FirstChain(e1, e')[2] == e'.v_end;
    assert e == e';
  }

  ghost function FirstVia(g: EdgeGraph, e1: Edge): nat -> seq<nat> {
    (idx: nat) => if idx < |g.edge_list| then FirstChain(e1, g.edge_list[idx]) else []
  }

  ghost function WorthVia(g: EdgeGraph, e1: Edge, f: seq<nat> -> int): nat -> int {
    (idx: nat) => f(FirstVia(g, e1)(idx))
  }

  lemma FirstViaIs(g: EdgeGraph, e1: Edge, f: seq<nat> -> int, idx: nat)
    requires idx < |g.edge_list|
    ensures FirstVia(g, e1)(idx) == FirstChain(e1, g.edge_list[idx])
    ensures WorthVia(g, e1, f)(idx) == f(FirstVia(g, e1)(idx))
  {
  }

  lemma CandidateIs(g: EdgeGraph, open: seq<nat>, used: set<nat>, idx: nat)
    requires IsCandidate(g, open, used, idx)
    ensures idx < |g.edge_list|
  {
  }

  /** The candidates for the first extension are the paths of three that start with the first edge. */
  lemma FirstCandidatesGrow(g: EdgeGraph, adj: Adjacency, e1: Edge, f: seq<nat> -> int)
    requires Stores(g, adj) && e1 in g.edge_list
    ensures Sum(Elements(FirstCandidates(g, e1)), WorthVia(g, e1, f)) == Sum(StartsOf(adj, EndsOf(e1)), f)
  {
    hide *;
    var open, used := Ends(e1), {e1.v_start, e1.v_end};
    var cand, starts := Elements(FirstCandidates(g, e1)), StartsOf(adj, EndsOf(e1));
    FirstCandidatesAre(g, e1);
    EndsInTable(g, adj, e1);
    CandidatesExact(g, adj, open, used);
    forall idx: nat ensures idx in cand <==> IsCandidate(g, open, used, idx) {
      ElementsMember(Candidates(g, open, used), idx);
    }
    forall idx: nat | idx in cand
      ensures idx < |g.edge_list| && FirstVia(g, e1)(idx) == FirstChain(e1, g.edge_list[idx])
      ensures FirstVia(g, e1)(idx) in starts && WorthVia(g, e1, f)(idx) == f(FirstVia(g, e1)(idx))
    {
      CandidateIs(g, open, used, idx);
      FirstViaIs(g, e1, f, idx);
      FirstGrows(g, adj, e1, idx);
    }
    forall idx: nat, idx': nat | idx in cand && idx' in cand && FirstVia(g, e1)(idx) == FirstVia(g, e1)(idx')
      ensures idx == idx'
    {
      OneFirstCandidate(g, adj, e1, idx, idx');
    }
    forall c | c in starts ensures exists idx :: idx in cand && FirstVia(g, e1)(idx) == c {
      var idx := StartHasCandidate(g, adj, e1, c);
      assert idx in cand;
    }
    SumBijection(cand, starts, FirstVia(g, e1), WorthVia(g, e1, f), f);
  }

  /** What a path of three must already satisfy. */
  ghost function Early(adj: Adjacency, shape: Shape): seq<nat> -> int {
    match shape
    case House => Houses.Roof(adj)
    case TwoTriangles => One()
  }

  /** What a path of three is worth. */
  ghost function FirstWorth(g: EdgeGraph, adj: Adjacency, shape: Shape): seq<nat> -> int {
    Product(Early(adj, shape), WaysFor(adj, Extensions(shape) - 1, Worth(Closing(g, shape))))
  }

  lemma EarlyIs(adj: Adjacency, shape: Shape, q: seq<nat>)
    requires |q| == 3
    ensures Early(adj, shape)(q) == if shape.House? && !Adj(adj, q[0], q[2]) then 0 else 1
  {
  }

  lemma WorthIs(g: EdgeGraph, adj: Adjacency, shape: Shape, q: seq<nat>)
    ensures FirstWorth(g, adj, shape)(q)
            == Early(adj, shape)(q) * Ways(adj, q, Extensions(shape) - 1, Worth(Closing(g, shape)))
  {
    hide Early, Ways, Worth, Closing;
  }

  lemma MeanNothing(p: real)
    ensures Mean(Return(0.0)) == Weigh(p, 0)
  {
  }

  lemma NextMean(g: EdgeGraph, adj: Adjacency, shape: Shape, e1: Edge, idx: nat, p: real)
    requires Stores(g, adj) && e1 in g.edge_list && IsCandidate(g, Ends(e1), {e1.v_start, e1.v_end}, idx)
    ensures idx < |g.edge_list|
    ensures Mean(FirstNext(g, shape, e1, p, g.edge_list[idx]))
            == Weigh(p, FirstWorth(g, adj, shape)(FirstChain(e1, g.edge_list[idx])))
  {
    hide *;
    CandidateIs(g, Ends(e1), {e1.v_start, e1.v_end}, idx);
    var e := g.edge_list[idx];
    var q := FirstChain(e1, e);
    FirstNextIs(g, shape, e1, p, e);
    LinkedIsAdj(g, adj, q[0], q[2]);
    EarlyIs(adj, shape, q);
    WorthIs(g, adj, shape, q);
    if shape.House? && !Adj(adj, q[0], q[2]) {
      MeanNothing(p);
    } else {
      FirstDrew(g, adj, e1, idx);
      ExtensionsAre(shape);
      StepMean(g, adj, q, Emplace(Erase(Ends(e1), e.v_start), e.v_end),
               {e1.v_start, e1.v_end} + {e.v_start, e.v_end}, Extensions(shape) - 1, p, Closing(g, shape));
    }
  }

  lemma NoFirst(g: EdgeGraph, shape: Shape, e1: Edge, p: real, f: nat -> int)
    requires FirstCandidates(g, e1) == []
    ensures Mean(FirstStep(g, shape, e1, p)) == Weigh(p, ListSum(FirstCandidates(g, e1), f))
  {
  }

  /** From the first edge, the mean is p times the worth of the paths of three that start with it. */
  lemma FirstMean(g: EdgeGraph, adj: Adjacency, shape: Shape, e1: Edge, p: real)
    requires Stores(g, adj) && e1 in g.edge_list
    ensures Mean(FirstStep(g, shape, e1, p)) == Weigh(p, Sum(StartsOf(adj, EndsOf(e1)), FirstWorth(g, adj, shape)))
  {
    hide *;
    var cand, f := FirstCandidates(g, e1), FirstWorth(g, adj, shape);
    var via := WorthVia(g, e1, f);
    FirstCandidatesAre(g, e1);
    EndsInTable(g, adj, e1);
    CandidatesExact(g, adj, Ends(e1), {e1.v_start, e1.v_end});
    FirstCandidatesGrow(g, adj, e1, f);
    ListSumIsSum(cand, via);
    if cand == [] {
      NoFirst(g, shape, e1, p, via);
    } else {
      var branches := FirstBranches(g, shape, e1, p, cand);
      forall i | 0 <= i < |cand| ensures Mean(branches[i]) == Weigh(Weigh(p, |cand|), via(cand[i])) {
        assert cand[i] in cand;
        CandidateIs(g, Ends(e1), {e1.v_start, e1.v_end}, cand[i]);
        FirstViaIs(g, e1, f, cand[i]);
        FirstBranchIs(g, shape, e1, p, i);
        NextMean(g, adj, shape, e1, cand[i], Weigh(p, |cand|));
      }
      assert cand[0] in cand;
      CandidateIs(g, Ends(e1), {e1.v_start, e1.v_end}, cand[0]);
      FirstBranchIs(g, shape, e1, p, 0);
      UniformMean(branches, cand, via, p);
    }
  }

  // ---------- The mean ----------

  ghost function StartSum(adj: Adjacency, f: seq<nat> -> int): seq<nat> -> int {
    q => Sum(StartsOf(adj, q), f)
  }

  ghost function StartSumAt(adj: Adjacency, f: seq<nat> -> int): Edge -> int {
    (e: Edge) => Sum(StartsOf(adj, EndsOf(e)), f)
  }

  ghost function Twice(f: seq<nat> -> int): seq<nat> -> int {
    p => Times(2, f(p))
  }

  /** A path of three starts with its first edge, in either direction. */
  lemma TwoStarts(adj: Adjacency, c: seq<nat>)
    requires Symmetric(adj) && c in PathsOf(adj, 3)
    ensures |CoRelated(c, PathsOf(adj, 2), StartsRelation())| == 2
  {
    hide PathsOf;
    ThreePath(adj, c);
    BothWays(adj, c[0], c[1]);
    var there, back := [c[0], c[1]], [c[1], c[0]];
    forall q ensures q in CoRelated(c, PathsOf(adj, 2), StartsRelation()) <==> q in {there, back} {
      PathsMember(adj, 2, q);
      if |q| == 2 && {c[0], c[1]} == {q[0], q[1]} {
        FirstOfPair(c[0], c[1], q[0], q[1]);
        assert q == there || q == back;
      }
    }
    assert CoRelated(c, PathsOf(adj, 2), StartsRelation()) == {there, back};
    assert there[0] != back[0];
  }

  lemma TwiceIs(f: seq<nat> -> int, c: seq<nat>)
    ensures Twice(f)(c) == Times(2, f(c)) == 2 * f(c)
  {
  }

  lemma StartSumIs(adj: Adjacency, f: seq<nat> -> int, q: seq<nat>)
    ensures StartSum(adj, f)(q) == Sum(Related(q, PathsOf(adj, 3), StartsRelation()), f)
  {
  }

  lemma StartsTwice(adj: Adjacency, f: seq<nat> -> int)
    requires Symmetric(adj)
    ensures Sum(PathsOf(adj, 2), StartSum(adj, f)) == 2 * Sum(PathsOf(adj, 3), f)
  {
    hide *;
    var r := StartsRelation();
    forall q ensures StartSum(adj, f)(q) == Sum(Related(q, PathsOf(adj, 3), r), f) {
      StartSumIs(adj, f, q);
    }
    forall c | c in PathsOf(adj, 3)
      ensures Twice(f)(c) == Times(|CoRelated(c, PathsOf(adj, 2), r)|, f(c)) && Twice(f)(c) == 2 * f(c)
    {
      TwoStarts(adj, c);
      TwiceIs(f, c);
    }
    SumExchange(PathsOf(adj, 2), PathsOf(adj, 3), r, f, StartSum(adj, f), Twice(f));
    SumScale(PathsOf(adj, 3), f, 2, Twice(f));
  }

  lemma StartSumAtIs(adj: Adjacency, f: seq<nat> -> int, e: Edge)
    ensures StartSumAt(adj, f)(e) == Sum(StartsOf(adj, EndsOf(e)), f) == StartSum(adj, f)(EndsOf(e))
  {
  }

  lemma TreeIs(g: EdgeGraph, shape: Shape)
    ensures ShapeTree(g, shape).Uniform? && |ShapeTree(g, shape).branches| == |g.edge_list|
    ensures forall i :: 0 <= i < |g.edge_list| ==>
              ShapeTree(g, shape).branches[i] == FirstStep(g, shape, g.edge_list[i], |g.edge_list| as real)
  {
    hide FirstStep;
  }

  lemma UndirectedIsSymmetric(adj: Adjacency)
    requires Undirected(adj)
    ensures Symmetric(adj)
  {
  }

  /** The mean over all draws: twice the worth of all paths of three. */
  lemma ShapeMean(g: EdgeGraph, adj: Adjacency, shape: Shape)
    requires Stores(g, adj) && g.edge_list != []
    ensures Mean(ShapeTree(g, shape)) == (2 * Sum(PathsOf(adj, 3), FirstWorth(g, adj, shape))) as real
  {
    hide *;
    var tree, edges, f := ShapeTree(g, shape), g.edge_list, FirstWorth(g, adj, shape);
    var fe := StartSumAt(adj, f);
    StoresEach(g, adj);
    UndirectedIsSymmetric(adj);
    TreeIs(g, shape);
    forall i | 0 <= i < |edges| ensures Mean(tree.branches[i]) == Weigh(Weigh(1.0, |edges|), fe(edges[i])) {
      UnitWeight(|edges|);
      StartSumAtIs(adj, f, edges[i]);
      FirstMean(g, adj, shape, edges[i], |edges| as real);
    }
    UniformMean(tree.branches, edges, fe, 1.0);
    ListSumIsSum(edges, fe);
    forall e ensures fe(e) == StartSum(adj, f)(EndsOf(e)) {
      StartSumAtIs(adj, f, e);
    }
    SumOverStarts(g, adj, StartSum(adj, f), fe);
    StartsTwice(adj, f);
    UnitWeight(2 * Sum(PathsOf(adj, 3), f));
  }

  /** At the end of a run, the tests are those of the shape. */
  lemma ClosedWorth(g: EdgeGraph, adj: Adjacency, shape: Shape, p: seq<nat>)
    requires Stores(g, adj) && |p| == Extensions(shape) + 2
    ensures shape.House? ==> Worth(Closing(g, shape))(p) == Houses.Wall(adj)(p)
    ensures shape.TwoTriangles? ==> Worth(Closing(g, shape))(p) == JoinedTriangles.Ends(adj)(p)
  {
    hide Stores, Closing;
    ClosingIs(g, adj, shape, p);
    StoresEach(g, adj);
    if shape.TwoTriangles? {
      BothWays(adj, p[3], p[5]);
      BothWays(adj, p[5], p[3]);
    }
  }

  lemma HouseWorth(g: EdgeGraph, adj: Adjacency, q: seq<nat>)
    requires Stores(g, adj) && q in PathsOf(adj, 3)
    ensures FirstWorth(g, adj, House)(q) == Product(Houses.Roof(adj), WaysFor(adj, 2, Houses.Wall(adj)))(q)
  {
    hide Stores, PathsOf, Ways, Houses.Wall;
    ThreePath(adj, q);
    forall p: seq<nat> | |p| == |q| + 2 ensures Worth(Closing(g, House))(p) == Houses.Wall(adj)(p) {
      ClosedWorth(g, adj, House, p);
    }
    WaysAgree(adj, q, 2, Worth(Closing(g, House)), Houses.Wall(adj));
  }

  lemma TrianglesWorth(g: EdgeGraph, adj: Adjacency, q: seq<nat>)
    requires Stores(g, adj) && q in PathsOf(adj, 3)
    ensures FirstWorth(g, adj, TwoTriangles)(q) == WaysFor(adj, 3, JoinedTriangles.Ends(adj))(q)
  {
    hide Stores, PathsOf, Ways, JoinedTriangles.Ends;
    ThreePath(adj, q);
    forall p: seq<nat> | |p| == |q| + 3
      ensures Worth(Closing(g, TwoTriangles))(p) == JoinedTriangles.Ends(adj)(p)
    {
      ClosedWorth(g, adj, TwoTriangles, p);
    }
    WaysAgree(adj, q, 3, Worth(Closing(g, TwoTriangles)), JoinedTriangles.Ends(adj));
  }

  /** The exact mean of the house sampler, over all its draws: 16 for each house. */
  lemma HouseMean(g: EdgeGraph, adj: Adjacency)
    requires Stores(g, adj) && g.edge_list != []
    ensures Mean(ShapeTree(g, House)) == (16 * |Houses.HousesOf(adj)|) as real
  {
    hide *;
    var f, worth := Product(Houses.Roof(adj), WaysFor(adj, 2, Houses.Wall(adj))), FirstWorth(g, adj, House);
    ShapeMean(g, adj, House);
    StoresEach(g, adj);
    UndirectedIsSymmetric(adj);
    forall q | q in PathsOf(adj, 3) ensures worth(q) == f(q) {
      HouseWorth(g, adj, q);
    }
    SumCongruence(PathsOf(adj, 3), worth, f);
    Houses.GrownHouses(adj);
  }

  /** The exact mean of the sampler for joined triangles, over all its draws: 128 for each pair. */
  lemma TwoTrianglesMean(g: EdgeGraph, adj: Adjacency)
    requires Stores(g, adj) && g.edge_list != []
    ensures Mean(ShapeTree(g, TwoTriangles)) == (128 * |JoinedTriangles.JoinedPairs(adj)|) as real
  {
    hide *;
    var f, worth := WaysFor(adj, 3, JoinedTriangles.Ends(adj)), FirstWorth(g, adj, TwoTriangles);
    ShapeMean(g, adj, TwoTriangles);
    StoresEach(g, adj);
    forall q | q in PathsOf(adj, 3) ensures worth(q) == f(q) {
      TrianglesWorth(g, adj, q);
    }
    SumCongruence(PathsOf(adj, 3), worth, f);
    JoinedTriangles.GrownPairs(adj);
  }
}
