/** The level-by-level back-pointer store of embeddings
    (sansa/include/pangolin_cpu/embedding.h:196-313). */
module Embeddings {
  import opened Counting
  import opened CsrGraph

  /** Up to a level, every index points into the level below. */
  ghost predicate Linked(vids: seq<seq<nat>>, idxs: seq<seq<nat>>, level: nat) {
    && level < |vids| == |idxs|
    && (forall l :: 1 <= l <= level ==> |idxs[l]| == |vids[l]|)
    && (forall l, p :: 2 <= l <= level && 0 <= p < |idxs[l]| ==> idxs[l][p] < |vids[l - 1]|)
  }

  /** The embedding at a position of a level, read back through the index lists. */
  ghost function Embedding(vids: seq<seq<nat>>, idxs: seq<seq<nat>>, level: nat, pos: nat): (e: seq<nat>)
    requires 1 <= level && Linked(vids, idxs, level) && pos < |vids[level]|
    ensures |e| == level + 1
  {
    if level == 1 then [idxs[1][pos], vids[1][pos]]
    else Embedding(vids, idxs, level - 1, idxs[level][pos]) + [vids[level][pos]]
  }

  /** All embeddings of a level, in order. */
  ghost function LevelOf(vids: seq<seq<nat>>, idxs: seq<seq<nat>>, level: nat): (es: seq<seq<nat>>)
    requires 1 <= level && Linked(vids, idxs, level)
    ensures |es| == |vids[level]|
  {
    seq(|vids[level]|, p requires 0 <= p < |vids[level]| => Embedding(vids, idxs, level, p))
  }

  lemma {:induction false} EmbeddingFrame(vids: seq<seq<nat>>, idxs: seq<seq<nat>>, vids': seq<seq<nat>>,
                                          idxs': seq<seq<nat>>, level: nat, pos: nat)
    requires 1 <= level && Linked(vids, idxs, level) && Linked(vids', idxs', level) && pos < |vids[level]|
    requires forall l :: 1 <= l <= level ==> vids'[l] == vids[l] && idxs'[l] == idxs[l]
    ensures Embedding(vids', idxs', level, pos) == Embedding(vids, idxs, level, pos)
  {
    if level > 1 {
      EmbeddingFrame(vids, idxs, vids', idxs', level - 1, idxs[level][pos]);
    }
  }

  lemma LevelFrame(vids: seq<seq<nat>>, idxs: seq<seq<nat>>, vids': seq<seq<nat>>, idxs': seq<seq<nat>>, level: nat)
    requires 1 <= level && Linked(vids, idxs, level) && level < |vids'| == |idxs'|
    requires forall l :: 1 <= l <= level ==> vids'[l] == vids[l] && idxs'[l] == idxs[l]
    ensures Linked(vids', idxs', level) && LevelOf(vids', idxs', level) == LevelOf(vids, idxs, level)
  {
    forall p | 0 <= p < |vids[level]| ensures LevelOf(vids', idxs', level)[p] == LevelOf(vids, idxs, level)[p] {
      EmbeddingFrame(vids, idxs, vids', idxs', level, p);
    }
  }

  function Put(lists: seq<seq<nat>>, level: nat, id: nat, x: nat): seq<seq<nat>>
    requires level < |lists| && id < |lists[level]|
  {
    var list: seq<nat> := lists[level][id := x];
    lists[level := list]
  }

  ghost predicate Recorded(adj: Adjacency, is_dag: bool, src: nat, done: set<nat>, u: nat, v: nat) {
    Adj(adj, u, v) && (is_dag || u < v) && (u < src || (u == src && v in done))
  }

  ghost predicate Holds(idxs: seq<nat>, vids: seq<nat>, u: nat, v: nat)
    requires |idxs| == |vids|
  {
    exists i :: 0 <= i < |vids| && idxs[i] == u && vids[i] == v
  }

  /** The pairs (idxs[i], vids[i]) are, once each, the edges from sources below src, and those from src into done. */
  ghost predicate EdgesUpTo(adj: Adjacency, is_dag: bool, idxs: seq<nat>, vids: seq<nat>, src: nat, done: set<nat>)
    requires |idxs| == |vids|
  {
    && (forall i, j :: 0 <= i < j < |vids| ==> idxs[i] != idxs[j] || vids[i] != vids[j])
    && (forall i :: 0 <= i < |vids| ==> Recorded(adj, is_dag, src, done, idxs[i], vids[i]))
    && (forall u, v :: Recorded(adj, is_dag, src, done, u, v) ==> Holds(idxs, vids, u, v))
  }

  lemma RecordEdge(adj: Adjacency, is_dag: bool, idxs: seq<nat>, vids: seq<nat>, src: nat, done: set<nat>, dst: nat)
    requires |idxs| == |vids| && EdgesUpTo(adj, is_dag, idxs, vids, src, done)
    requires Adj(adj, src, dst) && dst !in done
    ensures if is_dag || src < dst then EdgesUpTo(adj, is_dag, idxs + [src], vids + [dst], src, done + {dst})
            else EdgesUpTo(adj, is_dag, idxs, vids, src, done + {dst})
  {
    if is_dag || src < dst {
      var idxs', vids' := idxs + [src], vids + [dst];
      forall u, v | Recorded(adj, is_dag, src, done + {dst}, u, v) ensures Holds(idxs', vids', u, v) {
        if u == src && v == dst {
          assert idxs'[|idxs|] == u && vids'[|idxs|] == v;
        } else {
          assert Recorded(adj, is_dag, src, done, u, v);
          var i :| 0 <= i < |vids| && idxs[i] == u && vids[i] == v;
          assert idxs'[i] == u && vids'[i] == v;
        }
      }
    }
  }

  lemma RowRecorded(adj: Adjacency, is_dag: bool, idxs: seq<nat>, vids: seq<nat>, src: nat)
    requires src < |adj| && |idxs| == |vids| && EdgesUpTo(adj, is_dag, idxs, vids, src, adj[src])
    ensures EdgesUpTo(adj, is_dag, idxs, vids, src + 1, {})
  {
    forall u, v | Recorded(adj, is_dag, src + 1, {}, u, v) ensures Holds(idxs, vids, u, v) {
      assert Recorded(adj, is_dag, src, adj[src], u, v);
    }
  }

  /** The edges of one row go to the end of the lists. */
  method PushRow(ghost adj: Adjacency, is_dag: bool, src: nat, row: seq<nat>, idxs: seq<nat>, vids: seq<nat>)
    returns (idxs': seq<nat>, vids': seq<nat>)
    requires src < |adj| && StrictlyIncreasing(row) && Elements(row) == adj[src]
    requires |idxs| == |vids| && EdgesUpTo(adj, is_dag, idxs, vids, src, {})
    ensures |idxs'| == |vids'| && EdgesUpTo(adj, is_dag, idxs', vids', src + 1, {})
  {
    idxs', vids' := idxs, vids;
    assert Elements(row[..0]) == {};
    for i := 0 to |row|
      invariant |vids'| == |idxs'|
      invariant EdgesUpTo(adj, is_dag, idxs', vids', src, Elements(row[..i]))
    {
      var dst := row[i];
      assert row[..i + 1] == row[..i] + [dst];
      assert dst !in row[..i] && dst in Elements(row);
      RecordEdge(adj, is_dag, idxs', vids', src, Elements(row[..i]), dst);
      assert Elements(row[..i + 1]) == Elements(row[..i]) + {dst};
      if is_dag || src < dst {
        vids' := vids' + [dst];
        idxs' := idxs' + [src];
      }
    }
    assert row[..|row|] == row;
    RowRecorded(adj, is_dag, idxs', vids', src);
  }

  method PushRows(g: Csr, is_dag: bool) returns (idxs: seq<nat>, vids: seq<nat>)
    requires g.Simple()
    ensures |idxs| == |vids| && EdgesUpTo(g.Adjacency(), is_dag, idxs, vids, g.V(), {})
  {
    idxs, vids := [], [];
    ghost var adj := g.Adjacency();
    for src := 0 to g.V()
      invariant |vids| == |idxs|
      invariant EdgesUpTo(adj, is_dag, idxs, vids, src, {})
    {
      idxs, vids := PushRow(adj, is_dag, src, g.N(src), idxs, vids);
    }
  }

  ghost function PairedUp(idxs: seq<nat>, vids: seq<nat>): (es: seq<seq<nat>>)
    requires |idxs| == |vids|
    ensures |es| == |vids|
  {
    seq(|vids|, p requires 0 <= p < |vids| => [idxs[p], vids[p]])
  }

  lemma EdgeLevel(adj: Adjacency, is_dag: bool, idxs: seq<nat>, vids: seq<nat>)
    requires |idxs| == |vids| && EdgesUpTo(adj, is_dag, idxs, vids, |adj|, {})
    ensures NoDuplicates(PairedUp(idxs, vids))
    ensures forall e :: e in PairedUp(idxs, vids) <==> |e| == 2 && Adj(adj, e[0], e[1]) && (is_dag || e[0] < e[1])
  {
    var es := PairedUp(idxs, vids);
    forall e | |e| == 2 && Adj(adj, e[0], e[1]) && (is_dag || e[0] < e[1]) ensures e in es {
      assert Recorded(adj, is_dag, |adj|, {}, e[0], e[1]);
      var i :| 0 <= i < |vids| && idxs[i] == e[0] && vids[i] == e[1];
      assert es[i] == e;
    }
    forall i, j | 0 <= i < j < |es| ensures es[i] != es[j] {
      assert es[i][0] == idxs[i] && es[j][0] == idxs[j];
    }
  }

  /** What is at level one. */
  function LevelOne(lists: seq<seq<nat>>): seq<nat> {
    if |lists| > 1 then lists[1] else []
  }

  /** The outer list resized, and level one extended. */
  function Appended(lists: seq<seq<nat>>, max_size: nat, more: seq<nat>): (r: seq<seq<nat>>)
    requires max_size >= 2
    ensures |r| == max_size && r[1] == LevelOne(lists) + more
  {
    seq(max_size, l requires 0 <= l =>
      if l == 1 then LevelOne(lists) + more else if l < |lists| then lists[l] else [])
  }

  lemma PairedConcat(idxs: seq<nat>, vids: seq<nat>, idxs': seq<nat>, vids': seq<nat>)
    requires |idxs| == |vids| && |idxs'| == |vids'|
    ensures PairedUp(idxs + idxs', vids + vids') == PairedUp(idxs, vids) + PairedUp(idxs', vids')
    ensures vids == [] ==> PairedUp(idxs + idxs', vids + vids') == PairedUp(idxs', vids')
  {
  }

  lemma LevelOneIs(vids: seq<seq<nat>>, idxs: seq<seq<nat>>)
    requires |vids| == |idxs| > 1 && |vids[1]| == |idxs[1]|
    ensures Linked(vids, idxs, 1) && LevelOf(vids, idxs, 1) == PairedUp(idxs[1], vids[1])
  {
  }

  class EmbeddingList {
    var vid_lists: seq<seq<nat>>
    var idx_lists: seq<seq<nat>>
    var pid_list: seq<nat>
    var last_level: nat
    var max_level: nat

    ghost predicate Valid()
      reads this
    {
      && 1 <= last_level < max_level == |vid_lists|
      && Linked(vid_lists, idx_lists, last_level)
    }

    /** The embeddings of the current level. */
    ghost function Embeddings(): seq<seq<nat>>
      requires Valid()
      reads this
    {
      LevelOf(vid_lists, idx_lists, last_level)
    }

    constructor ()
      ensures LevelOne(vid_lists) == LevelOne(idx_lists) == []
    {
      vid_lists, idx_lists, pid_list := [], [], [];
      last_level, max_level := 0, 0;
    }

    /** Level 1: the edges, both directions when oriented, else from the smaller end. They go after what an earlier call
        left there. */
    method Init(g: Csr, max_size: nat, is_dag: bool) returns (ghost edges: seq<seq<nat>>)
      requires g.Simple() && max_size >= 2 && |LevelOne(idx_lists)| == |LevelOne(vid_lists)|
      modifies this
      ensures Valid() && last_level == 1 && max_level == max_size
      ensures Embeddings() == PairedUp(old(LevelOne(idx_lists)), old(LevelOne(vid_lists))) + edges
      ensures old(LevelOne(vid_lists)) == [] ==> Embeddings() == edges
      ensures NoDuplicates(edges)
      ensures forall e :: e in edges <==>
                |e| == 2 && Adj(g.Adjacency(), e[0], e[1]) && (is_dag || e[0] < e[1])
    {
      hide Csr.Simple, Csr.WellFormed, Csr.Adjacency, Adj, NoDuplicates, EdgesUpTo, PairedUp, LevelOf, Linked, Appended;
      SimpleIsWellFormed(g);
      last_level := 1;
      max_level := max_size;
      var idxs, vids := PushRows(g, is_dag);
      edges := PairedUp(idxs, vids);
      EdgeLevel(g.Adjacency(), is_dag, idxs, vids);
      vid_lists := Appended(vid_lists, max_size, vids);
      idx_lists := Appended(idx_lists, max_size, idxs);
      PairedConcat(old(LevelOne(idx_lists)), old(LevelOne(vid_lists)), idxs, vids);
      LevelOneIs(vid_lists, idx_lists);
    }

    /** Read an embedding back, last vertex first. */
    method GetEmbedding(level: nat, pos: nat) returns (e: seq<nat>)
      requires 1 <= level && Linked(vid_lists, idx_lists, level) && pos < |vid_lists[level]|
      ensures e == Embedding(vid_lists, idx_lists, level, pos)
    {
      var emb := [vid_lists[level][pos]];
      var idx: nat := idx_lists[level][pos];
      var l := 1;
      while l < level
        invariant 1 <= l <= level
        invariant l < level ==> idx < |vid_lists[level - l]|
        invariant Embedding(vid_lists, idx_lists, level, pos)
               == (if l < level then Embedding(vid_lists, idx_lists, level - l, idx) else [idx]) + emb
      {
        ghost var rest := if l + 1 < level then Embedding(vid_lists, idx_lists, level - l - 1,
                                                          idx_lists[level - l][idx])
                          else [idx_lists[1][idx]];
        ghost var emb0 := emb;
        emb := [vid_lists[level - l][idx]] + emb;
        assert Embedding(vid_lists, idx_lists, level - l, idx) == rest + [vid_lists[level - l][idx]];
        assert rest + [vid_lists[level - l][idx]] + emb0 == rest + emb;
        idx := idx_lists[level - l][idx];
        l := l + 1;
      }
      e := [idx] + emb;
    }

    /** Open a new last level of the given size, its entries still to be set. */
    method AddLevel(size: nat)
      requires Valid() && last_level + 1 < max_level
      modifies this
      ensures last_level == old(last_level) + 1 && max_level == old(max_level)
      ensures |vid_lists| == |idx_lists| == max_level && |pid_list| == size
      ensures forall l :: 0 <= l < last_level ==> vid_lists[l] == old(vid_lists[l]) && idx_lists[l] == old(idx_lists[l])
      ensures |vid_lists[last_level]| == |idx_lists[last_level]| == size
    {
      last_level := last_level + 1;
      vid_lists := vid_lists[last_level := seq(size, _ => 0)];
      idx_lists := idx_lists[last_level := seq(size, _ => 0)];
      pid_list := seq(size, _ => 0);
    }

    method SetVid(level: nat, id: nat, vid: nat)
      requires level < |vid_lists| && id < |vid_lists[level]|
      modifies this`vid_lists
      ensures vid_lists == Put(old(vid_lists), level, id, vid)
    {
      vid_lists := Put(vid_lists, level, id, vid);
    }

    method SetIdx(level: nat, id: nat, idx: nat)
      requires level < |idx_lists| && id < |idx_lists[level]|
      modifies this`idx_lists
      ensures idx_lists == Put(old(idx_lists), level, id, idx)
    {
      idx_lists := Put(idx_lists, level, id, idx);
    }

    method SetPid(id: nat, pid: nat)
      requires id < |pid_list|
      modifies this`pid_list
      ensures pid_list == old(pid_list)[id := pid]
    {
      pid_list := pid_list[id := pid];
    }
  }

  lemma TwoListsOf(edges: seq<seq<nat>>, edges': seq<seq<nat>>)
    requires forall e :: e in edges <==> e in edges'
    ensures NoDuplicates(edges + edges') ==> edges == []
  {
    if edges != [] {
      assert edges[0] in edges';
      var j :| 0 <= j < |edges'| && edges'[j] == edges[0];
      assert (edges + edges')[0] == (edges + edges')[|edges| + j];
    }
  }

  lemma EdgesTwice(list: EmbeddingList)
    requires list.Valid() && list.last_level == 1
    ensures |LevelOne(list.idx_lists)| == |LevelOne(list.vid_lists)|
    ensures PairedUp(LevelOne(list.idx_lists), LevelOne(list.vid_lists)) == list.Embeddings()
  {
    LevelOneIs(list.vid_lists, list.idx_lists);
  }

  lemma SameCard(a: seq<seq<nat>>, b: seq<seq<nat>>)
    requires NoDuplicates(a) && NoDuplicates(b) && forall e :: e in a <==> e in b
    ensures |a| == |b|
  {
    NoDuplicatesCard(a);
    NoDuplicatesCard(b);
    assert Elements(a) == Elements(b);
  }

  /** Initialising a list a second time, on the same graph: every edge is there twice. */
  method InitTwice(g: Csr, max_size: nat, is_dag: bool) returns (list: EmbeddingList, ghost edges: seq<seq<nat>>)
    requires g.Simple() && max_size >= 2
    ensures fresh(list) && list.Valid() && |list.Embeddings()| == 2 * |edges|
    ensures forall e :: e in edges <==> |e| == 2 && Adj(g.Adjacency(), e[0], e[1]) && (is_dag || e[0] < e[1])
    ensures NoDuplicates(list.Embeddings()) <==> edges == []
  {
    list := new EmbeddingList();
    edges := list.Init(g, max_size, is_dag);
    EdgesTwice(list);
    ghost var again := list.Init(g, max_size, is_dag);
    TwoListsOf(edges, again);
    SameCard(edges, again);
  }
}
