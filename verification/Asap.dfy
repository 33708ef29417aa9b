/** The neighbour-sampling estimators of ASAP: what each sampler does with its draws
    (arya_asap/graph_counting/src/ASAP_single_machine/estimating.h:604-753,
    arya_asap/graph_counting/src/ASAP_single_machine/graph.h). */
module Asap {
  import opened Counting
  import opened CsrGraph

  datatype Edge = Edge(v_start: nat, v_end: nat)
  datatype Vertex = Vertex(degree: nat, edge_index: nat)

  /** The vertex table gives each vertex its block of the edge list. */
  datatype EdgeGraph = EdgeGraph(v_table: map<nat, Vertex>, edge_list: seq<Edge>)

  ghost predicate InBlock(g: EdgeGraph, v: nat, idx: int) {
    v in g.v_table && g.v_table[v].edge_index <= idx < g.v_table[v].edge_index + g.v_table[v].degree
  }

  /** The list holds both copies of each edge of adj, each once, in the block of its start vertex. */
  ghost predicate Stores(g: EdgeGraph, adj: Adjacency) {
    && Undirected(adj)
    && NoDuplicates(g.edge_list)
    && (forall v :: v in g.v_table ==> v < |adj| && g.v_table[v].edge_index + g.v_table[v].degree <= |g.edge_list|)
    && (forall idx :: 0 <= idx < |g.edge_list| ==>
          InBlock(g, g.edge_list[idx].v_start, idx) && Adj(adj, g.edge_list[idx].v_start, g.edge_list[idx].v_end))
    && (forall v, idx :: InBlock(g, v, idx) ==> g.edge_list[idx].v_start == v)
    && (forall u, v :: Adj(adj, u, v) ==> Edge(u, v) in g.edge_list)
  }

  /** Is v2 in the list of v1? */
  method NeighborTest(g: EdgeGraph, ghost adj: Adjacency, v1: nat, v2: nat) returns (found: bool)
    requires Stores(g, adj) && v1 in g.v_table
    ensures found <==> Adj(adj, v1, v2)
  {
    var vertex := g.v_table[v1];
    for idx := 0 to vertex.degree
      invariant forall i :: vertex.edge_index <= i < vertex.edge_index + idx ==> g.edge_list[i].v_end != v2
    {
      assert InBlock(g, v1, vertex.edge_index + idx);
      if v2 == g.edge_list[vertex.edge_index + idx].v_end {
        return true;
      }
    }
    return false;
  }

  // ---------- Candidate edges ----------

  /** The open vertices are kept in ascending order, as in a std::map. */
  function Emplace(open: seq<nat>, v: nat): seq<nat> {
    if open == [] then [v]
    else if v < open[0] then [v] + open
    else if v == open[0] then open
    else [open[0]] + Emplace(open[1..], v)
  }

  function Erase(open: seq<nat>, v: nat): seq<nat> {
    if open == [] then []
    else if v == open[0] then open[1..]
    else [open[0]] + Erase(open[1..], v)
  }

  lemma {:induction false} EmplaceMembers(open: seq<nat>, v: nat)
    requires StrictlyIncreasing(open)
    ensures StrictlyIncreasing(Emplace(open, v)) && forall x :: x in Emplace(open, v) <==> x in open || x == v
  {
    if open != [] && v > open[0] {
      EmplaceMembers(open[1..], v);
      var rest := Emplace(open[1..], v);
      assert open == [open[0]] + open[1..];
      forall i | 0 <= i < |rest| ensures open[0] < rest[i] {
        assert rest[i] in rest;
        if rest[i] != v { assert rest[i] in open[1..]; }
      }
    } else if open != [] && v < open[0] {
      assert open == [open[0]] + open[1..];
    }
  }

  lemma {:induction false} EraseMembers(open: seq<nat>, v: nat)
    requires StrictlyIncreasing(open)
    ensures StrictlyIncreasing(Erase(open, v)) && forall x :: x in Erase(open, v) <==> x in open && x != v
  {
    if open != [] {
      assert open == [open[0]] + open[1..];
      if v != open[0] {
        EraseMembers(open[1..], v);
        var rest := Erase(open[1..], v);
        forall i | 0 <= i < |rest| ensures open[0] < rest[i] {
          assert rest[i] in rest;
          assert rest[i] in open[1..];
        }
      } else {
        forall x | x in open[1..] ensures x > open[0] {
        }
      }
    }
  }

  /** The edge indices of v's block. */
  function Block(g: EdgeGraph, v: nat): seq<nat> {
    if v in g.v_table then seq(g.v_table[v].degree, i requires 0 <= i => g.v_table[v].edge_index + i) else []
  }

  /** The edge leads out of the vertices used so far. */
  function LeadsOut(g: EdgeGraph, used: set<nat>): nat -> bool {
    (idx: nat) => idx < |g.edge_list| && g.edge_list[idx].v_end !in used
  }

  /** The candidate edges, vertex by vertex in ascending order. */
  function Candidates(g: EdgeGraph, open: seq<nat>, used: set<nat>): seq<nat> {
    if open == [] then []
    else Candidates(g, open[..|open| - 1], used) + Filter(Block(g, open[|open| - 1]), LeadsOut(g, used))
  }

  /** idx is an edge from an open vertex to a new one. */
  ghost predicate IsCandidate(g: EdgeGraph, open: seq<nat>, used: set<nat>, idx: nat) {
    idx < |g.edge_list| && g.edge_list[idx].v_start in open && g.edge_list[idx].v_end !in used
  }

  lemma BlockMembers(g: EdgeGraph, adj: Adjacency, v: nat)
    requires Stores(g, adj)
    ensures NoDuplicates(Block(g, v))
    ensures forall idx: nat :: idx in Block(g, v) <==> idx < |g.edge_list| && g.edge_list[idx].v_start == v
  {
    forall idx: nat ensures idx in Block(g, v) <==> idx < |g.edge_list| && g.edge_list[idx].v_start == v {
      if idx in Block(g, v) {
        assert InBlock(g, v, idx);
      }
      if idx < |g.edge_list| && g.edge_list[idx].v_start == v {
        assert InBlock(g, v, idx);
        assert Block(g, v)[idx - g.v_table[v].edge_index] == idx;
      }
    }
  }

  lemma CandidatesNone(g: EdgeGraph, used: set<nat>)
    ensures Candidates(g, [], used) == [] && NoDuplicates<nat>([]) && forall idx :: !IsCandidate(g, [], used, idx)
  {
  }

  lemma CandidatesStep(g: EdgeGraph, open: seq<nat>, used: set<nat>)
    requires open != []
    ensures Candidates(g, open, used)
            == Candidates(g, open[..|open| - 1], used) + Filter(Block(g, open[|open| - 1]), LeadsOut(g, used))
  {
  }

  lemma CandidateSplit(g: EdgeGraph, front: seq<nat>, last: nat, used: set<nat>, idx: nat)
    requires last !in front
    ensures IsCandidate(g, front + [last], used, idx) <==>
            IsCandidate(g, front, used, idx)
            || (idx < |g.edge_list| && g.edge_list[idx].v_start == last && LeadsOut(g, used)(idx))
    ensures IsCandidate(g, front, used, idx) ==> idx < |g.edge_list| && g.edge_list[idx].v_start != last
  {
  }

  lemma {:induction false} CandidatesExact(g: EdgeGraph, adj: Adjacency, open: seq<nat>, used: set<nat>)
    requires Stores(g, adj) && StrictlyIncreasing(open)
    ensures NoDuplicates(Candidates(g, open, used))
    ensures forall idx :: idx in Candidates(g, open, used) <==> IsCandidate(g, open, used, idx)
  {
    hide *;
    if open == [] {
      CandidatesNone(g, used);
    } else {
      var front, last := open[..|open| - 1], open[|open| - 1];
      var more := Filter(Block(g, last), LeadsOut(g, used));
      FrontIncreasing(open);
      CandidatesExact(g, adj, front, used);
      BlockMembers(g, adj, last);
      FilterMembers(Block(g, last), LeadsOut(g, used));
      FilterNoDuplicates(Block(g, last), LeadsOut(g, used));
      CandidatesStep(g, open, used);
      forall idx ensures idx in Candidates(g, open, used) <==> IsCandidate(g, open, used, idx) {
        CandidateSplit(g, front, last, used, idx);
        assert open == front + [last];
      }
      forall idx | idx in Candidates(g, front, used) ensures idx !in more {
        CandidateSplit(g, front, last, used, idx);
      }
      NoDuplicatesConcat(Candidates(g, front, used), more);
    }
  }

  lemma BlockIs(g: EdgeGraph, adj: Adjacency, v: nat)
    requires Stores(g, adj) && v in g.v_table
    ensures |Block(g, v)| == g.v_table[v].degree && g.v_table[v].edge_index + g.v_table[v].degree <= |g.edge_list|
    ensures forall k :: 0 <= k < |Block(g, v)| ==> Block(g, v)[k] == g.v_table[v].edge_index + k
  {
  }

  lemma LeadsOutIs(g: EdgeGraph, used: set<nat>, idx: nat)
    requires idx < |g.edge_list|
    ensures LeadsOut(g, used)(idx) <==> g.edge_list[idx].v_end !in used
  {
  }

  /** The program's loops over the open vertices and their blocks. */
  method CollectCandidates(g: EdgeGraph, ghost adj: Adjacency, open: seq<nat>, used: set<nat>)
    returns (found: seq<nat>, total: nat)
    requires Stores(g, adj) && forall v :: v in open ==> v in g.v_table
    ensures found == Candidates(g, open, used) && total == |found|
  {
    hide *;
    found, total := [], 0;
    assert open[..0] == [];
    CandidatesNone(g, used);
    for i := 0 to |open|
      invariant found == Candidates(g, open[..i], used) && total == |found|
    {
      BlockIs(g, adj, open[i]);
      var vertex := g.v_table[open[i]];
      ghost var block, p := Block(g, open[i]), LeadsOut(g, used);
      ghost var before := found;
      FilterNone(block, p);
      for k := 0 to vertex.degree
        invariant found == before + Filter(block[..k], p) && total == |found|
      {
        FilterStep(block, p, k);
        var idx := vertex.edge_index + k;
        LeadsOutIs(g, used, idx);
        if g.edge_list[idx].v_end !in used {
          total := total + 1;
          found := found + [idx];
        }
      }
      assert block[..vertex.degree] == block;
      assert open[..i + 1][..i] == open[..i];
      CandidatesStep(g, open[..i + 1], used);
    }
    assert open[..|open|] == open;
  }

  // ---------- Edges of the list ----------

  lemma EdgeEnds(g: EdgeGraph, adj: Adjacency, e: Edge)
    requires Stores(g, adj) && e in g.edge_list
    ensures e.v_start in g.v_table && e.v_end in g.v_table
    ensures e.v_start < |adj| && e.v_end < |adj| && e.v_start != e.v_end
    ensures Adj(adj, e.v_start, e.v_end) && Adj(adj, e.v_end, e.v_start)
  {
    var i :| 0 <= i < |g.edge_list| && g.edge_list[i] == e;
    assert InBlock(g, e.v_start, i);
    assert Adj(adj, e.v_end, e.v_start);
    var j :| 0 <= j < |g.edge_list| && g.edge_list[j] == Edge(e.v_end, e.v_start);
    assert InBlock(g, e.v_end, j);
  }

  /** The two ends of the first edge. */
  function Ends(e: Edge): seq<nat> {
    Emplace(Emplace([], e.v_start), e.v_end)
  }

  lemma StoresEach(g: EdgeGraph, adj: Adjacency)
    requires Stores(g, adj)
    ensures NoDuplicates(g.edge_list) && Undirected(adj)
  {
  }

  function EndsOf(e: Edge): seq<nat> {
    [e.v_start, e.v_end]
  }

  /** Summing over the entries of the edge list, or over the pairs they hold. */
  lemma SumOverEdges(g: EdgeGraph, pairs: set<seq<nat>>, f: seq<nat> -> int, fe: Edge -> int)
    requires forall e :: e in g.edge_list <==> EndsOf(e) in pairs
    requires forall p :: p in pairs ==> |p| == 2
    requires forall e :: fe(e) == f(EndsOf(e))
    ensures Sum(Elements(g.edge_list), fe) == Sum(pairs, f)
  {
    hide Sum;
    var edges := Elements(g.edge_list);
    forall p | p in pairs ensures exists e :: e in edges && EndsOf(e) == p {
      var e := Edge(p[0], p[1]);
      assert EndsOf(e) == p;
      assert e in edges;
    }
    forall e, e' | e in edges && e' in edges && EndsOf(e) == EndsOf(e') ensures e == e' {
      assert e.v_start == EndsOf(e)[0] && e.v_end == EndsOf(e)[1] && e'.v_start == EndsOf(e')[0]
             && e'.v_end == EndsOf(e')[1];
    }
    SumBijection(edges, pairs, EndsOf, fe, f);
  }

  ghost predicate Linked(g: EdgeGraph, v1: nat, v2: nat) {
    Edge(v1, v2) in g.edge_list
  }

  lemma LinkedIsAdj(g: EdgeGraph, adj: Adjacency, u: nat, v: nat)
    requires Stores(g, adj)
    ensures Linked(g, u, v) <==> Adj(adj, u, v)
  {
    if Linked(g, u, v) {
      EdgeEnds(g, adj, Edge(u, v));
    }
  }
}
