/** Counting cycles by depth-first search
    (arya_asap/graph_counting/src/ASAP_single_machine/graph.h:367-459). */
module OddCycles {
  import opened Counting
  import opened CsrGraph
  import opened Paths
  import opened Cycles
  import opened Asap

  // ---------- What a search from a path finds ----------

  /** The cycle sequences that begin with p. */
  ghost function Completions(adj: Adjacency, k: nat, p: seq<nat>): set<seq<nat>> {
    set s | s in CycleSeqs(adj, k) && p <= s
  }

  /** Those whose next vertex is one of xs. */
  ghost function CompletionsVia(adj: Adjacency, k: nat, p: seq<nat>, xs: set<nat>): set<seq<nat>> {
    set s | s in Completions(adj, k, p) && |s| > |p| && s[|p|] in xs
  }

  lemma CompletionMember(adj: Adjacency, k: nat, p: seq<nat>, s: seq<nat>)
    ensures s in Completions(adj, k, p) ==> |s| == k && p <= s && IsCycle(adj, s) && s in CycleSeqs(adj, k)
  {
    PathsMember(adj, k, s);
  }

  lemma NoVia(adj: Adjacency, k: nat, p: seq<nat>)
    ensures CompletionsVia(adj, k, p, {}) == {}
  {
  }

  lemma RepeatedVertex(p: seq<nat>, x: nat, s: seq<nat>)
    requires x in p
    ensures p + [x] <= s ==> !NoDuplicates(s)
  {
    if p + [x] <= s {
      var i :| 0 <= i < |p| && p[i] == x;
      assert s[i] == (p + [x])[i] && s[|p|] == (p + [x])[|p|];
    }
  }

  /** A vertex already on the path leads nowhere, a new one to the completions of the longer path. */
  lemma ViaStep(adj: Adjacency, k: nat, p: seq<nat>, xs: set<nat>, x: nat)
    requires x !in xs
    ensures x in p ==> CompletionsVia(adj, k, p, xs + {x}) == CompletionsVia(adj, k, p, xs)
    ensures |CompletionsVia(adj, k, p, xs + {x})| == |CompletionsVia(adj, k, p, xs)| + |Completions(adj, k, p + [x])|
  {
    var old_, new_ := CompletionsVia(adj, k, p, xs), Completions(adj, k, p + [x]);
    forall s ensures s in CompletionsVia(adj, k, p, xs + {x}) <==> s in old_ || s in new_ {
      if s in Completions(adj, k, p) && |s| > |p| && s[|p|] == x {
        assert s[..|p| + 1] == p + [x];
      }
      if s in new_ {
        assert s[..|p| + 1] == p + [x];
        assert s[|p|] == (p + [x])[|p|];
        assert p <= s;
      }
    }
    assert CompletionsVia(adj, k, p, xs + {x}) == old_ + new_;
    forall s | s in new_ ensures s !in old_ {
      assert s[|p|] == (p + [x])[|p|];
    }
    if x in p {
      forall s ensures s !in new_ {
        CompletionMember(adj, k, p + [x], s);
        RepeatedVertex(p, x, s);
      }
      assert new_ == {};
    }
  }

  /** Before the target length, every completion goes on to a neighbour of the last vertex. */
  lemma ViaAll(adj: Adjacency, k: nat, p: seq<nat>, xs: set<nat>)
    requires |p| > 0 && |p| != k && xs == set x | x in Below(|adj|) && Adj(adj, p[|p| - 1], x)
    requires Undirected(adj)
    ensures CompletionsVia(adj, k, p, xs) == Completions(adj, k, p)
  {
    forall s | s in Completions(adj, k, p) ensures |s| > |p| && s[|p|] in xs {
      CompletionMember(adj, k, p, s);
      assert Adj(adj, s[|p| - 1], s[|p| - 1 + 1]);
    }
  }

  /** At the target length, the path is a cycle if its ends are adjacent. */
  lemma AtTarget(adj: Adjacency, k: nat, p: seq<nat>)
    requires p in PathsOf(adj, k) && |p| > 0
    ensures |Completions(adj, k, p)| == if Adj(adj, p[0], p[|p| - 1]) then 1 else 0
  {
    PathsMember(adj, k, p);
    forall s | s in Completions(adj, k, p) ensures s == p {
      CompletionMember(adj, k, p, s);
    }
    if Adj(adj, p[0], p[|p| - 1]) {
      assert Completions(adj, k, p) == {p};
    } else {
      assert Completions(adj, k, p) == {};
    }
  }

  // ---------- The search ----------

  /** A vector passed by reference. */
  class IdVector {
    var ids: seq<nat>

    constructor ()
      ensures ids == []
    {
      ids := [];
    }

    method PushBack(x: nat)
      modifies this
      ensures ids == old(ids) + [x]
    {
      ids := ids + [x];
    }

    method PopBack()
      requires ids != []
      modifies this
      ensures ids == old(ids)[..|old(ids)| - 1]
    {
      ids := ids[..|ids| - 1];
    }
  }

  /** Exactly the vertices of the path are marked. */
  ghost predicate Marks(visited: seq<bool>, p: seq<nat>) {
    && (forall v :: v in p ==> v < |visited|)
    && forall v :: 0 <= v < |visited| ==> (visited[v] <==> v in p)
  }

  /** Vertex ids index the marks. */
  ghost predicate Numbered(g: EdgeGraph) {
    forall v :: v in g.v_table ==> v < |g.v_table|
  }

  lemma NotNumbered(g: EdgeGraph, v: nat)
    requires v in g.v_table && v >= |g.v_table|
    ensures !Numbered(g)
  {
  }

  lemma AllNumbered(g: EdgeGraph)
    requires forall v :: v in g.v_table.Keys ==> v < |g.v_table|
    ensures Numbered(g)
  {
  }

  /** That is, they have no gaps. */
  lemma NumberedMeansNoGaps(g: EdgeGraph)
    ensures Numbered(g) <==> g.v_table.Keys == Below(|g.v_table|)
  {
    var keys, n := g.v_table.Keys, |g.v_table|;
    BelowCard(n);
    if Numbered(g) {
      assert keys <= Below(n);
      SubsetCard(Below(n) - keys, Below(n));
      assert Below(n) == keys + (Below(n) - keys);
    } else {
      var v :| v in g.v_table && v >= n;
      assert v in keys && v !in Below(n);
    }
  }

  /** One edge, between vertices 0 and 2: the marks are two, and the second vertex is the third. */
  lemma GapExample(g: EdgeGraph, adj: Adjacency)
    requires adj == [{2}, {}, {0}]
    requires g == EdgeGraph(map[0 := Vertex(1, 0), 2 := Vertex(1, 1)], [Edge(0, 2), Edge(2, 0)])
    ensures Stores(g, adj) && g.v_table.Keys != Below(|g.v_table|)
  {
    assert 2 in g.v_table.Keys && |g.v_table| == 2;
    assert g.edge_list[0] == Edge(0, 2) && g.edge_list[1] == Edge(2, 0);
  }

  /** The vertices the entries first..first+n of the list lead to. */
  ghost function LeadTo(g: EdgeGraph, first: nat, n: nat): set<nat>
    requires first + n <= |g.edge_list|
  {
    set i | first <= i < first + n :: g.edge_list[i].v_end
  }

  lemma UndirectedIsSymmetric(adj: Adjacency)
    requires Undirected(adj)
    ensures Symmetric(adj)
  {
  }

  lemma InRange(g: EdgeGraph, adj: Adjacency, p: seq<nat>)
    requires Stores(g, adj) && IsPath(adj, p) && forall v :: v in p ==> v in g.v_table
    ensures p in PathsOf(adj, |p|)
  {
    PathsMember(adj, |p|, p);
    forall i | 0 <= i < |p| ensures p[i] < |adj| {
      assert p[i] in p;
    }
  }

  lemma InTable(g: EdgeGraph, adj: Adjacency, v: nat)
    requires Stores(g, adj) && v in g.v_table
    ensures g.v_table[v].edge_index + g.v_table[v].degree <= |g.edge_list| && Undirected(adj)
  {
  }

  lemma LeadToNone(g: EdgeGraph, first: nat)
    requires first <= |g.edge_list|
    ensures LeadTo(g, first, 0) == {}
  {
  }

  /** The next entry leads to a new neighbour. */
  lemma NextVertex(g: EdgeGraph, adj: Adjacency, v: nat, idx: nat)
    requires Stores(g, adj) && v in g.v_table && idx < g.v_table[v].degree
    ensures g.v_table[v].edge_index + g.v_table[v].degree <= |g.edge_list|
    ensures var x := g.edge_list[g.v_table[v].edge_index + idx].v_end;
            && Adj(adj, v, x) && x in g.v_table
            && x !in LeadTo(g, g.v_table[v].edge_index, idx)
            && LeadTo(g, g.v_table[v].edge_index, idx + 1) == LeadTo(g, g.v_table[v].edge_index, idx) + {x}
  {
    var first := g.v_table[v].edge_index;
    var e := g.edge_list[first + idx];
    assert InBlock(g, v, first + idx);
    assert e in g.edge_list;
    EdgeEnds(g, adj, e);
    forall i | first <= i < first + idx ensures g.edge_list[i].v_end != e.v_end {
      assert InBlock(g, v, i);
      assert g.edge_list[i] != e;
    }
  }

  lemma LeadToAll(g: EdgeGraph, adj: Adjacency, v: nat)
    requires Stores(g, adj) && v in g.v_table
    ensures g.v_table[v].edge_index + g.v_table[v].degree <= |g.edge_list|
    ensures LeadTo(g, g.v_table[v].edge_index, g.v_table[v].degree) == set x | x in Below(|adj|) && Adj(adj, v, x)
  {
    var s := LeadTo(g, g.v_table[v].edge_index, g.v_table[v].degree);
    forall x ensures x in s <==> x in Below(|adj|) && Adj(adj, v, x) {
      if x in s {
        var i :| g.v_table[v].edge_index <= i < g.v_table[v].edge_index + g.v_table[v].degree
            && g.edge_list[i].v_end == x;
        assert InBlock(g, v, i);
      }
      if Adj(adj, v, x) {
        assert Edge(v, x) in g.edge_list;
        var i :| 0 <= i < |g.edge_list| && g.edge_list[i] == Edge(v, x);
        assert InBlock(g, v, i);
      }
    }
  }

  lemma NoMarks(visited: seq<bool>)
    requires forall v :: 0 <= v < |visited| ==> !visited[v]
    ensures Marks(visited, [])
  {
  }

  lemma MarkOf(visited: seq<bool>, p: seq<nat>, x: nat)
    requires Marks(visited, p) && x < |visited|
    ensures visited[x] <==> x in p
  {
  }

  lemma MarkNext(visited: seq<bool>, p: seq<nat>, x: nat)
    requires Marks(visited, p) && x < |visited|
    ensures Marks(visited[x := true], p + [x])
    ensures !visited[x] ==> visited[x := true][x := false] == visited
  {
  }

  lemma LongerPath(g: EdgeGraph, adj: Adjacency, p: seq<nat>, x: nat, visited: seq<bool>)
    requires p != [] && IsPath(adj, p) && Adj(adj, p[|p| - 1], x) && x !in p
    requires x < |visited| && Marks(visited, p)
    ensures IsPath(adj, p + [x]) && |p| < |visited|
    ensures (forall v :: v in p ==> v in g.v_table) && x in g.v_table ==> forall v :: v in p + [x] ==> v in g.v_table
  {
    var q, n := p + [x], |visited|;
    NoDuplicatesConcat(p, [x]);
    NoDuplicatesCard(q);
    assert Elements(q) <= Below(n);
    SubsetCard(Elements(q), Below(n));
    BelowCard(n);
    forall i | 0 <= i < |q| - 1 ensures Adj(adj, q[i], q[i + 1]) {
      if i < |p| - 1 {
        assert Adj(adj, p[i], p[i + 1]);
      }
    }
  }

  lemma StartPath(g: EdgeGraph, adj: Adjacency, none: seq<bool>, v: nat)
    requires v in g.v_table && v < |none| == |g.v_table| && Marks(none, [])
    ensures v < |none| && Marks(none[v := true], [v]) && none[v := true][v := false] == none && IsPath(adj, [v])
  {
    assert [] + [v] == [v];
    MarkNext(none, [], v);
  }

  /** Every cycle starts at a vertex of the table. */
  lemma AllStarts(g: EdgeGraph, adj: Adjacency, k: nat)
    requires Stores(g, adj)
    ensures CompletionsVia(adj, k, [], g.v_table.Keys) == CycleSeqs(adj, k)
  {
    forall s | s in CycleSeqs(adj, k) ensures s in CompletionsVia(adj, k, [], g.v_table.Keys) {
      assert Adj(adj, First(s), Last(s));
      EdgeEnds(g, adj, Edge(First(s), Last(s)));
    }
  }

  class CycleCounter {
    const g: EdgeGraph
    var visited: array<bool>
    var target_cycle_length: nat
    var total_cycles: nat

    constructor (graph: EdgeGraph)
      ensures g == graph
    {
      g := graph;
      visited := new bool[0];
      target_cycle_length := 0;
      total_cycles := 0;
    }

    /** Counts the cycles that complete the path, and restores the path and the marks; unless it would read a mark past
        the end. */
    method DfsCycle(ghost adj: Adjacency, path: IdVector) returns (inRange: bool)
      requires Stores(g, adj) && visited.Length == |g.v_table|
      requires path.ids != [] && IsPath(adj, path.ids) && Marks(visited[..], path.ids)
      requires forall v :: v in path.ids ==> v in g.v_table
      modifies path, visited, this`total_cycles
      ensures Numbered(g) ==> inRange
      ensures inRange ==> path.ids == old(path.ids) && visited[..] == old(visited[..])
      ensures inRange ==>
                total_cycles == old(total_cycles) + |Completions(adj, target_cycle_length, old(path.ids))|
      decreases visited.Length - |path.ids|
    {
      hide *;
      ghost var p, k := path.ids, target_cycle_length;
      if |path.ids| == target_cycle_length {
        InRange(g, adj, p);
        AtTarget(adj, k, p);
        var found := NeighborTest(g, adj, path.ids[0], path.ids[|path.ids| - 1]);
        if found {
          total_cycles := total_cycles + 1;
        }
        return true;
      }
      var cur_vertex_id := path.ids[|path.ids| - 1];
      var cur_vertex := g.v_table[cur_vertex_id];
      InTable(g, adj, cur_vertex_id);
      LeadToNone(g, cur_vertex.edge_index);
      NoVia(adj, k, p);
      for idx := 0 to cur_vertex.degree
        invariant path.ids == p && visited[..] == old(visited[..])
        invariant total_cycles == old(total_cycles) + |CompletionsVia(adj, k, p, LeadTo(g, cur_vertex.edge_index, idx))|
      {
        var next_vertex_id := g.edge_list[cur_vertex.edge_index + idx].v_end;
        NextVertex(g, adj, cur_vertex_id, idx);
        ViaStep(adj, k, p, LeadTo(g, cur_vertex.edge_index, idx), next_vertex_id);
        if next_vertex_id >= visited.Length {
          NotNumbered(g, next_vertex_id);
          return false;
        }
        MarkOf(visited[..], p, next_vertex_id);
        if !visited[next_vertex_id] {
          path.PushBack(next_vertex_id);
          ghost var before := visited[..];
          visited[next_vertex_id] := true;
          assert visited[..] == before[next_vertex_id := true];
          MarkNext(before, p, next_vertex_id);
          LongerPath(g, adj, p, next_vertex_id, before);
          inRange := DfsCycle(adj, path);
          if !inRange {
            return;
          }
          path.PopBack();
          visited[next_vertex_id] := false;
          assert path.ids == p;
          assert visited[..] == before;
        }
      }
      LeadToAll(g, adj, cur_vertex_id);
      ViaAll(adj, k, p, LeadTo(g, cur_vertex.edge_index, cur_vertex.degree));
      inRange := true;
    }

    /** Every cycle on k vertices is found once from each start in each direction. There are as many marks as vertices,
        so if the vertex ids have gaps the search runs past their end: then there is no result. */
    method EnumerateOddCycles(ghost adj: Adjacency, cycle_length: nat) returns (r: Option<nat>)
      requires Stores(g, adj)
      modifies this
      ensures r.Some? <==> g.v_table.Keys == Below(|g.v_table|)
      ensures r.Some? ==> r.value == |CycleSeqs(adj, cycle_length)|
      ensures r.Some? && cycle_length >= 3 ==> r.value == 2 * cycle_length * |CyclesOf(adj, cycle_length)|
    {
      hide *;
      visited := new bool[|g.v_table|](i => false);
      target_cycle_length := cycle_length;
      total_cycles := 0;
      var left := g.v_table.Keys;
      ghost var marks := visited;
      ghost var none := visited[..];
      NoMarks(none);
      NumberedMeansNoGaps(g);
      ghost var done: set<nat> := {};
      NoVia(adj, cycle_length, []);
      while left != {}
        invariant visited == marks && visited[..] == none && target_cycle_length == cycle_length
        invariant left <= g.v_table.Keys && done == g.v_table.Keys - left
        invariant total_cycles == |CompletionsVia(adj, cycle_length, [], done)|
        invariant forall v :: v in done ==> v < |g.v_table|
        decreases |left|
      {
        var v :| v in left;
        left := left - {v};
        ViaStep(adj, cycle_length, [], done, v);
        if v >= visited.Length {
          NotNumbered(g, v);
          return None;
        }
        StartPath(g, adj, none, v);
        var path := new IdVector();
        path.PushBack(v);
        assert [] + [v] == [v];
        visited[v] := true;
        assert visited[..] == none[v := true];
        var inRange := DfsCycle(adj, path);
        if !inRange {
          return None;
        }
        visited[v] := false;
        assert visited[..] == none;
        done := done + {v};
      }
      assert done == g.v_table.Keys;
      AllNumbered(g);
      AllStarts(g, adj, cycle_length);
      r := Some(total_cycles);
      if cycle_length >= 3 {
        StoresEach(g, adj);
        UndirectedIsSymmetric(adj);
        SequencesPerCycle(adj, cycle_length);
      }
    }
  }
}
