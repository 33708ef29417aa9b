/** Core numbers of a pattern, kept as adjacency lists (sansa/src/common/pattern.cc:183-245). */
module PatternGraph {
  import opened Counting
  import opened CsrGraph
  import opened KCore

  ghost function AdjacencyOf(adj_list: seq<seq<nat>>): (adj: Adjacency)
    ensures |adj| == |adj_list|
  {
    seq(|adj_list|, v requires 0 <= v < |adj_list| => Elements(adj_list[v]))
  }

  /** The lists, in the order the edges were read, are those of an undirected graph without repeated edges. */
  ghost predicate IsSimple(adj_list: seq<seq<nat>>) {
    && Undirected(AdjacencyOf(adj_list))
    && forall v :: 0 <= v < |adj_list| ==> NoDuplicates(adj_list[v])
  }

  /** The vertices that lie in a subgraph of minimum degree k. */
  ghost function CoreSet(adj: Adjacency, k: nat): set<nat> {
    set v | v in Below(|adj|) && InCore(adj, k, v)
  }

  /** The vertices below m with a core value above one. */
  ghost function Dense(core_table: seq<nat>, m: nat): set<nat>
    requires m <= |core_table|
  {
    set v | v in Below(m) && core_table[v] > 1
  }

  lemma DenseNone(core_table: seq<nat>)
    ensures Dense(core_table, 0) == {}
  {
  }

  lemma DenseNext(core_table: seq<nat>, m: nat)
    requires m < |core_table|
    ensures |Dense(core_table, m + 1)| == |Dense(core_table, m)| + if core_table[m] > 1 then 1 else 0
  {
    assert Dense(core_table, m + 1) == Dense(core_table, m) + if core_table[m] > 1 then {m} else {};
  }

  /** The 2-core is what has a core number above one. */
  lemma DenseIsTwoCore(adj: Adjacency, core_table: seq<nat>)
    requires |core_table| == |adj| && forall v :: 0 <= v < |adj| ==> IsCoreNumber(adj, v, core_table[v])
    ensures Dense(core_table, |adj|) == CoreSet(adj, 2)
  {
    forall v | v in Below(|adj|) ensures core_table[v] > 1 <==> InCore(adj, 2, v) {
      assert InCore(adj, 2, v) <==> 2 <= core_table[v];
    }
  }

  lemma DegreesAre(adj_list: seq<seq<nat>>, deg: seq<nat>)
    requires IsSimple(adj_list) && |deg| == |adj_list| && forall v :: 0 <= v < |deg| ==> deg[v] == |adj_list[v]|
    ensures Undirected(AdjacencyOf(adj_list))
    ensures forall v :: 0 <= v < |deg| ==> deg[v] == |AdjacencyOf(adj_list)[v]|
  {
    forall v | 0 <= v < |deg| ensures deg[v] == |AdjacencyOf(adj_list)[v]| {
      NoDuplicatesCard(adj_list[v]);
    }
  }

  lemma FrontInRange(adj: Adjacency, st: Peel, md: nat, i: nat, level: nat)
    requires Peeling(adj, st, md, i, level) && i < |adj|
    ensures i < |st.vertices| && st.vertices[i] < |adj|
  {
  }

  lemma ListIs(adj_list: seq<seq<nat>>, v: nat)
    requires IsSimple(adj_list) && v < |adj_list|
    ensures NoDuplicates(adj_list[v]) && Elements(adj_list[v]) == AdjacencyOf(adj_list)[v]
    ensures Undirected(AdjacencyOf(adj_list))
  {
  }

  lemma AllPeeled(adj_list: seq<seq<nat>>, st: Peel, md: nat, level: nat)
    requires IsSimple(adj_list) && Peeling(AdjacencyOf(adj_list), st, md, |adj_list|, level)
    ensures |st.core| == |adj_list|
    ensures forall v :: 0 <= v < |adj_list| ==> IsCoreNumber(AdjacencyOf(adj_list), v, st.core[v])
  {
    hide IsCoreNumber;
    AllSettled(AdjacencyOf(adj_list), st, level);
  }

  /** Peeling in a sorted order, over the lists. */
  method PeelLists(adj_list: seq<seq<nat>>, ghost md: nat,
                   core: array<nat>, vertices: array<nat>, position: array<nat>, offset: array<nat>)
    requires IsSimple(adj_list) && Distinct(core, vertices, position, offset)
    requires core.Length == vertices.Length == |adj_list|
    requires Peeling(AdjacencyOf(adj_list), Snapshot(core, vertices, position, offset), md, 0, 0)
    modifies core, vertices, position, offset
    ensures forall v :: 0 <= v < |adj_list| ==> IsCoreNumber(AdjacencyOf(adj_list), v, core[v])
  {
    hide *;
    ghost var adj := AdjacencyOf(adj_list);
    ghost var level: nat := 0;
    SnapshotIs(core, vertices, position, offset);
    for i := 0 to |adj_list|
      invariant Peeling(adj, Snapshot(core, vertices, position, offset), md, i, level)
    {
      SnapshotIs(core, vertices, position, offset);
      FrontInRange(adj, Snapshot(core, vertices, position, offset), md, i, level);
      var v := vertices[i];
      ghost var c := core[v];
      ListIs(adj_list, v);
      TakeVertex(adj, adj_list[v], md, core, vertices, position, offset, i, level);
      level := c;
    }
    SnapshotIs(core, vertices, position, offset);
    AllPeeled(adj_list, Snapshot(core, vertices, position, offset), md, level);
  }

  class Pattern {
    var adj_list: seq<seq<nat>>
    var max_degree: nat
    var core_table: array<nat>
    var core_length: nat

    /** The maximum degree bounds the degrees, as reading the edges leaves it. */
    ghost predicate Valid()
      reads this
    {
      IsSimple(adj_list) && forall v :: 0 <= v < |adj_list| ==> |adj_list[v]| <= max_degree
    }

    /** The same peeling over adjacency lists. */
    method ComputeKCore()
      requires Valid() && core_table.Length == |adj_list|
      modifies core_table
      ensures forall v :: 0 <= v < |adj_list| ==> IsCoreNumber(AdjacencyOf(adj_list), v, core_table[v])
    {
      var lists, n := adj_list, |adj_list|;
      var vertices := new nat[n];
      var position := new nat[n];
      var offset := new nat[max_degree + 1];
      var deg := seq(n, v requires 0 <= v < n => |lists[v]|);
      DegreesAre(lists, deg);
      hide AdjacencyOf, IsSimple, IsCoreNumber, Peeling, SortedByDegree;
      SortByDegree(deg, max_degree, core_table, vertices, position, offset);
      SortedIsPeeling(AdjacencyOf(lists), deg, Snapshot(core_table, vertices, position, offset), max_degree);
      PeelLists(lists, max_degree, core_table, vertices, position, offset);
    }

    /** The core table, and the size of the 2-core added to the length kept. */
    method BuildCoreTable()
      requires Valid()
      modifies this`core_table, this`core_length
      ensures fresh(core_table) && core_table.Length == |adj_list|
      ensures forall v :: 0 <= v < |adj_list| ==> IsCoreNumber(AdjacencyOf(adj_list), v, core_table[v])
      ensures core_length == old(core_length) + |CoreSet(AdjacencyOf(adj_list), 2)|
    {
      hide IsSimple, AdjacencyOf, IsCoreNumber, CoreSet, Dense;
      core_table := new nat[|adj_list|];
      ComputeKCore();
      hide *;
      ghost var table := core_table[..];
      ghost var before, adj := core_length, AdjacencyOf(adj_list);
      assert forall v :: 0 <= v < |table| ==> IsCoreNumber(adj, v, table[v]);
      DenseNone(table);
      for i := 0 to |adj_list|
        invariant fresh(core_table) && table == core_table[..] && |table| == |adj_list|
                  && core_length == before + |Dense(table, i)|
      {
        DenseNext(table, i);
        if core_table[i] > 1 {
          core_length := core_length + 1;
        }
      }
      assert adj == AdjacencyOf(adj_list);
      DenseIsTwoCore(adj, table);
    }
  }
}
