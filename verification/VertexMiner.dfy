/** Vertex-induced mining over the embedding store
    (sansa/include/pangolin_cpu/vertex_miner.h). */
module VertexMining {
  import opened Counting
  import opened CsrGraph
  import opened Canonical
  import opened Embeddings
  import opened Exploration
  import opened Exactness
  import opened Motifs
  import opened MotifCounts
  import opened CliqueMining
  import opened Scan

  lemma RowsAreRows(g: Csr)
    requires g.Simple() && Loopless(g.Adjacency())
    ensures RowsOf(g.Adjacency(), g.Rows())
  {
  }

  ghost predicate CountsExt(es: seq<seq<nat>>, ext: seq<nat> -> seq<nat>, counts: seq<nat>) {
    |counts| == |es| && forall pos :: 0 <= pos < |counts| ==> counts[pos] == |ext(es[pos])|
  }

  /** The fixed data of a second pass: the levels below, the embeddings of the last of them, and the size of the new
      level. */
  datatype Writing = Writing(adj: Adjacency, vids: seq<seq<nat>>, idxs: seq<seq<nat>>, es: seq<seq<nat>>, size: nat)

  ghost predicate IsLevel(w: Writing, level: nat) {
    1 <= level && Linked(w.vids, w.idxs, level) && w.es == LevelOf(w.vids, w.idxs, level)
  }

  /** The new level holds exactly `done` so far, and nothing below it has changed. */
  ghost predicate Written(list: EmbeddingList, level: nat, w: Writing, done: seq<(nat, nat)>)
    reads list
  {
    && list.last_level == level + 1 < list.max_level == |list.vid_lists| == |list.idx_lists|
    && |w.vids| == |w.idxs| == list.max_level
    && |list.vid_lists[level + 1]| == |list.idx_lists[level + 1]| == |list.pid_list| == w.size
    && (forall l :: 0 <= l <= level ==> list.vid_lists[l] == w.vids[l] && list.idx_lists[l] == w.idxs[l])
    && Filled(list.vid_lists, list.idx_lists, level + 1, done, |done|)
  }

  ghost predicate PidsWritten(pids: seq<nat>, w: Writing, done: seq<(nat, nat)>) {
    && |done| <= |pids|
    && forall t :: 0 <= t < |done| ==>
         done[t].0 < |w.es| && |w.es[done[t].0]| == 2 && pids[t] == Pid3(w.adj, w.es[done[t].0] + [done[t].1])
  }

  /** Every 3-vertex embedding has its pattern id stored. */
  ghost predicate PidsStored(adj: Adjacency, es: seq<seq<nat>>, pids: seq<nat>) {
    && |pids| == |es|
    && forall pos :: 0 <= pos < |es| ==> |es[pos]| == 3 && pids[pos] == Pid3(adj, es[pos])
  }

  lemma PrefixSumLength(counts: seq<nat>, indices: seq<nat>)
    requires IsPrefixSum(counts, indices)
    ensures |indices| == |counts| + 1
  {
  }

  lemma LevelBefore(list: EmbeddingList, level: nat, w: Writing)
    requires list.Valid() && level == list.last_level
    requires w.vids == list.vid_lists && w.idxs == list.idx_lists && w.es == list.Embeddings()
    ensures IsLevel(w, level) && 1 <= level && list.max_level == |list.vid_lists| == |list.idx_lists|
  {
  }

  lemma WrittenIsNext(list: EmbeddingList, level: nat, w: Writing, ext: seq<nat> -> seq<nat>)
    requires IsLevel(w, level)
    requires Written(list, level, w, Pairs(w.es, ext, |w.es|)) && |Pairs(w.es, ext, |w.es|)| == w.size
    ensures list.Valid() && list.Embeddings() == NextLevel(w.es, ext)
  {
    LevelFrame(w.vids, w.idxs, list.vid_lists, list.idx_lists, level);
    FilledIsNext(list.vid_lists, list.idx_lists, level, ext);
  }

  lemma WrittenPids(list: EmbeddingList, level: nat, w: Writing, ext: seq<nat> -> seq<nat>)
    requires list.Valid() && list.Embeddings() == NextLevel(w.es, ext)
    requires Written(list, level, w, Pairs(w.es, ext, |w.es|)) && |Pairs(w.es, ext, |w.es|)| == w.size
    requires PidsWritten(list.pid_list, w, Pairs(w.es, ext, |w.es|))
    ensures PidsStored(w.adj, list.Embeddings(), list.pid_list)
  {
    var pairs := Pairs(w.es, ext, |w.es|);
    forall pos | 0 <= pos < |pairs|
      ensures |list.Embeddings()[pos]| == 3 && list.pid_list[pos] == Pid3(w.adj, list.Embeddings()[pos])
    {
      assert NextLevel(w.es, ext)[pos] == w.es[pairs[pos].0] + [pairs[pos].1];
    }
  }

  ghost predicate CountsSoFar(es: seq<seq<nat>>, ext: seq<nat> -> seq<nat>, counts: seq<nat>, m: nat) {
    |counts| == m <= |es| && forall pos :: 0 <= pos < m ==> counts[pos] == |ext(es[pos])|
  }

  lemma CountsGrow(es: seq<seq<nat>>, ext: seq<nat> -> seq<nat>, counts: seq<nat>, m: nat, n: nat)
    requires m < |es| && n == |ext(es[m])|
    ensures CountsSoFar(es, ext, counts, m) ==> CountsSoFar(es, ext, counts + [n], m + 1)
  {
  }

  lemma CountsDone(es: seq<seq<nat>>, ext: seq<nat> -> seq<nat>, counts: seq<nat>)
    ensures CountsSoFar(es, ext, counts, |es|) ==> CountsExt(es, ext, counts)
  {
  }

  lemma PairsGrow(es: seq<seq<nat>>, ext: seq<nat> -> seq<nat>, m: nat)
    ensures Pairs(es, ext, 0) == [] && CountsSoFar(es, ext, [], 0)
    ensures m < |es| ==> |Pairs(es, ext, m + 1)| == |Pairs(es, ext, m)| + |ext(es[m])|
  {
  }

  lemma WrittenWidth(list: EmbeddingList, level: nat, w: Writing, done: seq<(nat, nat)>)
    requires 1 <= level && IsLevel(w, level) && Written(list, level, w, done)
    ensures level < |list.vid_lists| && |list.vid_lists[level]| == |w.es|
  {
  }

  /** While the next level is written, this one can still be read back. */
  lemma WrittenReadable(list: EmbeddingList, level: nat, w: Writing, done: seq<(nat, nat)>, pos: nat)
    requires 1 <= level && IsLevel(w, level) && Written(list, level, w, done) && pos < |w.es|
    ensures Linked(list.vid_lists, list.idx_lists, level)
    ensures level < |list.vid_lists| && pos < |list.vid_lists[level]|
    ensures Embedding(list.vid_lists, list.idx_lists, level, pos) == w.es[pos]
    ensures |w.es[pos]| == level + 1
  {
    LevelFrame(w.vids, w.idxs, list.vid_lists, list.idx_lists, level);
    assert LevelOf(list.vid_lists, list.idx_lists, level)[pos] == w.es[pos];
  }

  class VertexMiner {
    const graph: Csr
    const max_size: nat

    constructor (g: Csr, size: nat)
      ensures graph == g && max_size == size
    {
      graph := g;
      max_size := size;
    }

    /** The input is a simple undirected graph. */
    ghost predicate Ready() {
      graph.Simple() && Undirected(graph.Adjacency())
    }

    /** How an embedding is extended for motifs. */
    ghost function Ext(): seq<nat> -> seq<nat> {
      MotifExt(graph.Adjacency(), graph.Rows())
    }

    /** Pattern ids of 3-vertex embeddings are stored when 4-motifs are mined. */
    ghost predicate StoresPids(n: nat) {
      n == 2 && max_size == 4
    }

    ghost predicate Extensible(e: seq<nat>) {
      InRange(graph.Adjacency(), e) && (StoresPids(|e|) ==> IsCanonical(graph.Adjacency(), e))
    }

    /** The new level so far, with pattern ids where they are stored. */
    ghost predicate Progress(list: EmbeddingList, level: nat, w: Writing, done: seq<(nat, nat)>)
      reads list
    {
      && w.adj == graph.Adjacency()
      && Written(list, level, w, done)
      && (StoresPids(level + 1) ==> PidsWritten(list.pid_list, w, done))
    }

    /** The canonicality test, as loops with early exits. */
    method IsVertexInducedAutomorphism(emb: seq<nat>, idx: nat, dst: nat) returns (rejected: bool)
      requires Ready() && InRange(graph.Adjacency(), emb) && idx < |emb| && dst < graph.V()
      ensures rejected <==> !Accepts(graph.Adjacency(), emb, idx, dst)
    {
      var n := |emb|;
      if dst <= emb[0] {
        return true;
      }
      for i := 1 to n
        invariant forall k :: 1 <= k < i ==> dst != emb[k]
      {
        if dst == emb[i] {
          return true;
        }
      }
      for i := 0 to idx
        invariant forall k :: 0 <= k < i ==> !Adj(graph.Adjacency(), emb[k], dst)
      {
        var connected := Miner.IsConnected(graph, emb[i], dst);
        if connected {
          return true;
        }
      }
      for i := idx + 1 to n
        invariant forall k :: idx < k < i ==> dst >= emb[k]
      {
        if dst < emb[i] {
          return true;
        }
      }
      return false;
    }

    lemma ExtensibleInRange(emb: seq<nat>)
      requires Extensible(emb)
      ensures InRange(graph.Adjacency(), emb)
    {
    }

    lemma RowEntry(emb: seq<nat>, i: nat)
      requires Ready() && InRange(graph.Adjacency(), emb) && i < |emb|
      ensures emb[i] + 1 < |graph.vertices|
      ensures graph.vertices[emb[i]] <= graph.vertices[emb[i] + 1] <= |graph.edges|
      ensures RowExt(graph.Adjacency(), graph.Rows(), emb, i)
              == Filter(graph.N(emb[i]), AcceptAt(graph.Adjacency(), emb, i))
      ensures forall dst :: dst in graph.N(emb[i]) ==>
                && |graph.vertices| > 0 && dst < graph.V() && Adj(graph.Adjacency(), emb[i], dst)
                && (AcceptAt(graph.Adjacency(), emb, i)(dst) <==> Accepts(graph.Adjacency(), emb, i, dst))
    {
    }

    /** How many vertices extend emb from position i. */
    method CountRow(emb: seq<nat>, i: nat) returns (n: nat)
      requires Ready() && InRange(graph.Adjacency(), emb) && i < |emb|
      ensures n == |RowExt(graph.Adjacency(), graph.Rows(), emb, i)|
    {
      hide *;
      RowEntry(emb, i);
      var row := graph.N(emb[i]);
      ghost var p := AcceptAt(graph.Adjacency(), emb, i);
      n := 0;
      FilterNone(row, p);
      for e := 0 to |row|
        invariant n == |Filter(row[..e], p)|
      {
        assert row[e] in row;
        FilterStep(row, p, e);
        var rejected := IsVertexInducedAutomorphism(emb, i, row[e]);
        if !rejected {
          n := n + 1;
        }
      }
      assert row[..|row|] == row;
    }

    lemma ExtEnds(emb: seq<nat>)
      ensures ExtUpTo(graph.Adjacency(), graph.Rows(), emb, 0) == []
      ensures ExtUpTo(graph.Adjacency(), graph.Rows(), emb, |emb|) == Ext()(emb)
    {
    }

    /** How many vertices extend emb. */
    method CountExtensions(emb: seq<nat>) returns (n: nat)
      requires Ready() && InRange(graph.Adjacency(), emb)
      ensures n == |Ext()(emb)|
    {
      hide *;
      n := 0;
      ExtEnds(emb);
      for i := 0 to |emb|
        invariant n == |ExtUpTo(graph.Adjacency(), graph.Rows(), emb, i)|
      {
        ExtSplits(graph.Adjacency(), graph.Rows(), emb, i + 1);
        var k := CountRow(emb, i);
        n := n + k;
      }
    }

    /** The first pass: how many extensions each embedding of the level has. */
    method CountLevel(list: EmbeddingList, level: nat) returns (counts: seq<nat>)
      requires Ready() && list.Valid() && level == list.last_level
      requires forall e :: e in list.Embeddings() ==> Extensible(e)
      ensures CountsExt(list.Embeddings(), Ext(), counts)
    {
      hide Ready, InRange, IsCanonical, Ext, Linked;
      counts := [];
      ghost var es := list.Embeddings();
      for pos := 0 to |list.vid_lists[level]|
        invariant |counts| == pos
        invariant forall k :: 0 <= k < pos ==> counts[k] == |Ext()(es[k])|
      {
        var emb := list.GetEmbedding(level, pos);
        assert es[pos] == emb;
        assert Extensible(es[pos]);
        var n := CountExtensions(emb);
        counts := counts + [n];
      }
    }

    /** One new entry, with its pattern id when those are stored. */
    method WriteEntry(list: EmbeddingList, level: nat, pos: nat, emb: seq<nat>, i: nat, dst: nat, start: nat,
                      ghost w: Writing, ghost done: seq<(nat, nat)>)
      requires Ready() && Extensible(emb) && |emb| == level + 1 && i < |emb|
      requires Adj(graph.Adjacency(), emb[i], dst) && Accepts(graph.Adjacency(), emb, i, dst)
      requires pos < |w.es| && w.es[pos] == emb
      requires Progress(list, level, w, done) && start == |done| < w.size
      modifies list
      ensures Progress(list, level, w, done + [(pos, dst)])
    {
      hide Ready, Extensible, Accepts, Pid3, Linked, Adj, Written, PidsWritten;
      if |emb| == 2 && max_size == 4 {
        var pid := StoredPid(emb, i, dst);
        WritePid(list, level, pos, start, dst, pid, w, done);
      }
      WritePair(list, level, pos, start, dst, w, done);
    }

    /** The pattern id of a new entry. */
    method WritePid(list: EmbeddingList, level: nat, pos: nat, start: nat, dst: nat, pid: nat,
                    ghost w: Writing, ghost done: seq<(nat, nat)>)
      requires Written(list, level, w, done) && PidsWritten(list.pid_list, w, done) && start == |done| < w.size
      requires pos < |w.es| && |w.es[pos]| == 2 && pid == Pid3(w.adj, w.es[pos] + [dst])
      modifies list`pid_list
      ensures Written(list, level, w, done) && PidsWritten(list.pid_list, w, done + [(pos, dst)])
    {
      hide Pid3, Filled;
      list.SetPid(start, pid);
    }

    method StoredPid(emb: seq<nat>, i: nat, dst: nat) returns (pid: nat)
      requires Ready() && Extensible(emb) && |emb| == 2 && max_size == 4 && i < |emb|
      requires Adj(graph.Adjacency(), emb[i], dst) && Accepts(graph.Adjacency(), emb, i, dst)
      ensures pid == Pid3(graph.Adjacency(), emb + [dst])
    {
      pid := FindMotifPatternId(graph, 2, i, dst, emb, 0);
    }

    /** The second pass over one row: every accepted vertex gets an entry. */
    method WriteRow(list: EmbeddingList, level: nat, pos: nat, emb: seq<nat>, i: nat, start: nat,
                    ghost w: Writing, ghost done: seq<(nat, nat)>)
      returns (start': nat)
      requires Ready() && Extensible(emb) && |emb| == level + 1 && i < |emb|
      requires pos < |w.es| && w.es[pos] == emb
      requires Progress(list, level, w, done) && start == |done|
      requires |done| + |RowExt(graph.Adjacency(), graph.Rows(), emb, i)| <= w.size
      modifies list
      ensures start' == start + |RowExt(graph.Adjacency(), graph.Rows(), emb, i)|
      ensures Progress(list, level, w, done + Tagged(pos, RowExt(graph.Adjacency(), graph.Rows(), emb, i)))
    {
      hide *;
      ExtensibleInRange(emb);
      RowEntry(emb, i);
      var row := graph.N(emb[i]);
      ghost var p := AcceptAt(graph.Adjacency(), emb, i);
      start' := start;
      FilterNone(row, p);
      TaggedNone(done, pos);
      for e := 0 to |row|
        invariant start' == start + |Filter(row[..e], p)|
        invariant Progress(list, level, w, done + Tagged(pos, Filter(row[..e], p)))
      {
        ghost var before := Filter(row[..e], p);
        assert row[e] in row;
        FilterStep(row, p, e);
        FilterPrefix(row, p, e + 1);
        TaggedStep(done, pos, before, row[e]);
        var rejected := IsVertexInducedAutomorphism(emb, i, row[e]);
        if !rejected {
          WriteEntry(list, level, pos, emb, i, row[e], start', w, done + Tagged(pos, before));
          start' := start' + 1;
        }
        assert before + [] == before;
      }
      assert row[..|row|] == row;
    }

    /** The second pass over one embedding. */
    method WriteExtensions(list: EmbeddingList, level: nat, pos: nat, emb: seq<nat>, start: nat,
                           ghost w: Writing, ghost done: seq<(nat, nat)>)
      requires Ready() && Extensible(emb) && |emb| == level + 1
      requires pos < |w.es| && w.es[pos] == emb
      requires Progress(list, level, w, done) && start == |done| && |done| + |Ext()(emb)| <= w.size
      modifies list
      ensures Progress(list, level, w, done + Tagged(pos, Ext()(emb)))
    {
      hide *;
      ghost var adj, rows := graph.Adjacency(), graph.Rows();
      var start' := start;
      TaggedNone(done, pos);
      ExtEnds(emb);
      for i := 0 to |emb|
        invariant start' == start + |ExtUpTo(adj, rows, emb, i)|
        invariant Progress(list, level, w, done + Tagged(pos, ExtUpTo(adj, rows, emb, i)))
      {
        ExtSplits(adj, rows, emb, i + 1);
        ExtPrefix(adj, rows, emb, i + 1);
        TaggedConcat(done, pos, ExtUpTo(adj, rows, emb, i), RowExt(adj, rows, emb, i));
        start' := WriteRow(list, level, pos, emb, i, start', w, done + Tagged(pos, ExtUpTo(adj, rows, emb, i)));
      }
    }

    lemma ProgressIsWritten(list: EmbeddingList, level: nat, w: Writing, done: seq<(nat, nat)>)
      requires Progress(list, level, w, done)
      ensures Written(list, level, w, done)
    {
    }

    /** The second pass at one position. */
    method WriteAt(list: EmbeddingList, level: nat, pos: nat, start: nat, ghost w: Writing, ghost done: seq<(nat, nat)>)
      requires Ready() && 1 <= level && IsLevel(w, level) && pos < |w.es| && Extensible(w.es[pos])
      requires Progress(list, level, w, done) && start == |done| && |done| + |Ext()(w.es[pos])| <= w.size
      modifies list
      ensures Progress(list, level, w, done + Tagged(pos, Ext()(w.es[pos])))
    {
      hide *;
      ProgressIsWritten(list, level, w, done);
      WrittenReadable(list, level, w, done, pos);
      var emb := list.GetEmbedding(level, pos);
      WriteExtensions(list, level, pos, emb, start, w, done);
    }

    /** The second pass over the level. */
    method WriteLevel(list: EmbeddingList, level: nat, indices: seq<nat>, ghost counts: seq<nat>, ghost w: Writing)
      requires Ready() && 1 <= level && IsLevel(w, level)
      requires forall e :: e in w.es ==> Extensible(e)
      requires CountsExt(w.es, Ext(), counts) && IsPrefixSum(counts, indices) && w.size == indices[|counts|]
      requires Progress(list, level, w, [])
      modifies list
      ensures Progress(list, level, w, Pairs(w.es, Ext(), |w.es|)) && |Pairs(w.es, Ext(), |w.es|)| == w.size
    {
      hide *;
      ghost var ext := Ext();
      ProgressIsWritten(list, level, w, []);
      WrittenWidth(list, level, w, []);
      IndicesWidth(w.es, ext, counts, indices);
      NoPairs(w.es, ext);
      var n := |list.vid_lists[level]|;
      for pos := 0 to n
        invariant Progress(list, level, w, Pairs(w.es, ext, pos))
      {
        BlockFits(w.es, ext, counts, indices, pos);
        assert w.es[pos] in w.es;
        WriteAt(list, level, pos, indices[pos], w, Pairs(w.es, ext, pos));
      }
      PairsCount(w.es, ext, counts, indices, |w.es|);
    }

    /** Scan the counts, open the level, and fill it. */
    method FillLevel(list: EmbeddingList, level: nat, counts: seq<nat>) returns (ghost w: Writing)
      requires Ready() && list.Valid() && level == list.last_level && level + 1 < list.max_level
      requires forall e :: e in list.Embeddings() ==> Extensible(e)
      requires CountsExt(list.Embeddings(), Ext(), counts)
      modifies list
      ensures w.es == old(list.Embeddings()) && IsLevel(w, level) && list.max_level == old(list.max_level)
      ensures Progress(list, level, w, Pairs(w.es, Ext(), |w.es|)) && |Pairs(w.es, Ext(), |w.es|)| == w.size
    {
      hide *;
      var indices := PrefixSum(counts);
      PrefixSumLength(counts, indices);
      w := Writing(graph.Adjacency(), list.vid_lists, list.idx_lists, list.Embeddings(), indices[|counts|]);
      LevelBefore(list, level, w);
      list.AddLevel(indices[|counts|]);
      StartProgress(list, level, w);
      WriteLevel(list, level, indices, counts, w);
      ProgressIsWritten(list, level, w, Pairs(w.es, Ext(), |w.es|));
      WrittenWidth(list, level, w, Pairs(w.es, Ext(), |w.es|));
    }

    lemma StartProgress(list: EmbeddingList, level: nat, w: Writing)
      requires w.adj == graph.Adjacency() && list.last_level == level + 1 < list.max_level == |list.vid_lists|
               == |list.idx_lists|
      requires |w.vids| == |w.idxs| == list.max_level
      requires |list.vid_lists[level + 1]| == |list.idx_lists[level + 1]| == |list.pid_list| == w.size
      requires forall l :: 0 <= l <= level ==> list.vid_lists[l] == w.vids[l] && list.idx_lists[l] == w.idxs[l]
      ensures Progress(list, level, w, [])
    {
    }

    /** Extension for vertex-induced motifs: count, scan, then write the next level. */
    method ExtendVertex(level: nat, list: EmbeddingList)
      requires Ready() && list.Valid() && level == list.last_level && level + 1 < list.max_level
      requires forall e :: e in list.Embeddings() ==> Extensible(e)
      modifies list
      ensures list.Valid() && list.last_level == level + 1 && list.max_level == old(list.max_level)
      ensures list.Embeddings() == NextLevel(old(list.Embeddings()), Ext())
      ensures StoresPids(level + 1) ==> PidsStored(graph.Adjacency(), list.Embeddings(), list.pid_list)
    {
      var numNewEmb := CountLevel(list, level);
      ghost var w := FillLevel(list, level, numNewEmb);
      WrittenIsNext(list, level, w, Ext());
      if StoresPids(level + 1) {
        WrittenPids(list, level, w, Ext());
      }
    }

    /** One thread counts the extensions of emb from position i. */
    method AggregateRow(emb: seq<nat>, embPid: nat, i: nat, counter: seq<nat>) returns (counter': seq<nat>)
      requires Ready() && Countable(emb, embPid) && i < |emb| && HasCounters(counter, |emb|)
      ensures |counter'| == |counter|
      ensures forall q :: Cell(counter', q)
                       == Cell(counter, q) + Hits(graph.Adjacency(), emb,
                                                  RowExt(graph.Adjacency(), graph.Rows(), emb, i), q)
    {
      hide *;
      CountableInRange(emb, embPid);
      RowEntry(emb, i);
      ghost var adj := graph.Adjacency();
      var row := graph.N(emb[i]);
      ghost var p := AcceptAt(adj, emb, i);
      counter' := counter;
      FilterNone(row, p);
      NoHits(adj, emb);
      for e := 0 to |row|
        invariant |counter'| == |counter|
        invariant forall q :: Cell(counter', q) == Cell(counter, q) + Hits(adj, emb, Filter(row[..e], p), q)
      {
        assert row[e] in row;
        FilterStep(row, p, e);
        var rejected := IsVertexInducedAutomorphism(emb, i, row[e]);
        if !rejected {
          var pid := FindPid(emb, embPid, i, row[e]);
          CounterWidth(counter, |emb|);
          forall q ensures Cell(Bumped(counter', pid), q)
                        == Cell(counter', q) + Bit(PidOf(adj, emb + [row[e]]) == q)
          {
            CellBumped(counter', pid, q);
          }
          forall q ensures Hits(adj, emb, Filter(row[..e], p) + [row[e]], q)
                        == Hits(adj, emb, Filter(row[..e], p), q) + Bit(PidOf(adj, emb + [row[e]]) == q)
          {
            HitsStep(adj, emb, Filter(row[..e], p), row[e], q);
          }
          CellBumped(counter', pid, pid);
          counter' := Bumped(counter', pid);
        } else {
          assert Filter(row[..e], p) + [] == Filter(row[..e], p);
        }
      }
      assert row[..|row|] == row;
    }

    /** emb is being counted: two or three vertices, accepted so far, with the stored id when three. */
    ghost predicate Countable(emb: seq<nat>, embPid: nat) {
      && (|emb| == 2 || |emb| == 3) && IsCanonical(graph.Adjacency(), emb)
      && (|emb| == 3 ==> embPid == Pid3(graph.Adjacency(), emb))
    }

    lemma CountableInRange(emb: seq<nat>, embPid: nat)
      requires Ready() && Countable(emb, embPid)
      ensures InRange(graph.Adjacency(), emb)
    {
      CanonicalInRange(graph.Adjacency(), emb);
    }

    method FindPid(emb: seq<nat>, embPid: nat, i: nat, dst: nat) returns (pid: nat)
      requires Ready() && Countable(emb, embPid) && i < |emb|
      requires Adj(graph.Adjacency(), emb[i], dst) && Accepts(graph.Adjacency(), emb, i, dst)
      ensures pid == PidOf(graph.Adjacency(), emb + [dst]) && pid < Kinds(|emb|)
    {
      hide IsCanonical, CanonicalStep, Accepts, Undirected, Adj, Induces, Pid4, Csr.Simple;
      pid := FindMotifPatternId(graph, |emb|, i, dst, emb, embPid);
      assert (emb + [dst])[..|emb|] == emb;
      if |emb| == 3 {
        Pid4Induces(graph.Adjacency(), emb, dst);
      }
    }

    /** One thread counts all extensions of emb. */
    method AggregateEmbedding(emb: seq<nat>, embPid: nat, counter: seq<nat>) returns (counter': seq<nat>)
      requires Ready() && Countable(emb, embPid) && HasCounters(counter, |emb|)
      ensures |counter'| == |counter|
      ensures forall q :: Cell(counter', q) == Cell(counter, q) + Hits(graph.Adjacency(), emb, Ext()(emb), q)
    {
      hide *;
      ghost var adj, rows := graph.Adjacency(), graph.Rows();
      counter' := counter;
      ExtEnds(emb);
      NoHits(adj, emb);
      for i := 0 to |emb|
        invariant |counter'| == |counter|
        invariant forall q :: Cell(counter', q) == Cell(counter, q) + Hits(adj, emb, ExtUpTo(adj, rows, emb, i), q)
      {
        ExtSplits(adj, rows, emb, i + 1);
        SameWidth(counter, counter', |emb|);
        forall q ensures Hits(adj, emb, ExtUpTo(adj, rows, emb, i + 1), q)
                      == Hits(adj, emb, ExtUpTo(adj, rows, emb, i), q) + Hits(adj, emb, RowExt(adj, rows, emb, i), q)
        {
          HitsConcat(adj, emb, ExtUpTo(adj, rows, emb, i), RowExt(adj, rows, emb, i), q);
        }
        counter' := AggregateRow(emb, embPid, i, counter');
      }
    }

    /** The motif reduction: each thread counts its positions in its own counter; over all threads, every embedding of
        the last level is counted. */
    method Aggregate(level: nat, list: EmbeddingList, threads: seq<nat>, counts: seq<seq<nat>>)
      returns (counts': seq<seq<nat>>)
      requires Ready() && list.Valid() && level == list.last_level
      requires ReadyToCount(level, list.Embeddings(), list.pid_list)
      requires |threads| == |list.Embeddings()| && AllHaveCounters(counts, threads, level + 1)
      ensures SameShape(counts, counts')
      ensures forall t, q :: 0 <= t < |counts| ==>
                Cell(counts'[t], q) == Cell(counts[t], q)
                                       + HitsBy(graph.Adjacency(), list.Embeddings(), Ext(), threads, t, q)
      ensures forall q :: Total(counts', q) == Total(counts, q)
                       + HitsUpTo(graph.Adjacency(), list.Embeddings(), Ext(), |list.Embeddings()|, q)
    {
      hide *;
      ghost var adj, ext, es := graph.Adjacency(), Ext(), list.Embeddings();
      ListWidth(list);
      counts' := counts;
      SameShapeRefl(counts);
      NothingCounted(adj, es, ext, counts);
      assert threads[..0] == [];
      for pos := 0 to |list.vid_lists[level]|
        invariant SameShape(counts, counts') && |counts'| == |counts|
        invariant forall t, q :: 0 <= t < |counts| ==>
                    Cell(counts'[t], q) == Cell(counts[t], q) + HitsBy(adj, es, ext, threads[..pos], t, q)
        invariant forall q :: Total(counts', q) == Total(counts, q) + HitsUpTo(adj, es, ext, pos, q)
      {
        CountableAt(level, es, list.pid_list, pos);
        ListReadable(list, pos);
        var emb := list.GetEmbedding(level, pos);
        var embPid := if |emb| == 3 then list.pid_list[pos] else 0;
        var t := threads[pos];
        CountersAt(counts, counts', threads, level + 1, pos);
        ghost var before := counts';
        var counter := AggregateEmbedding(emb, embPid, counts'[t]);
        counts' := counts'[t := counter];
        CountedNext(adj, es, ext, threads, pos, counts, before, counter);
        SameShapeUpdate(counts, before, t, counter);
      }
      assert threads[..|threads|] == threads;
    }

    /** The last level holds all accepted embeddings of its size, with pattern ids when they have three vertices. */
    ghost predicate ReadyToCount(level: nat, es: seq<seq<nat>>, pids: seq<nat>) {
      && (level == 1 || level == 2)
      && ListsCanonical(graph.Adjacency(), es, level + 1)
      && (level == 2 ==> PidsStored(graph.Adjacency(), es, pids))
    }

    lemma CountableAt(level: nat, es: seq<seq<nat>>, pids: seq<nat>, pos: nat)
      requires ReadyToCount(level, es, pids) && pos < |es|
      ensures |es[pos]| == level + 1 && (|es[pos]| == 3 ==> pos < |pids|)
      ensures Countable(es[pos], if |es[pos]| == 3 then pids[pos] else 0)
    {
      assert es[pos] in es;
    }

    /** Mining 3-motifs: over all threads, counter 0 gains the number of triangles and counter 1 that of wedges. */
    method AggregateThree(list: EmbeddingList, threads: seq<nat>, counts: seq<seq<nat>>)
      returns (counts': seq<seq<nat>>)
      requires Ready() && list.Valid() && list.last_level == 1
      requires ReadyToCount(1, list.Embeddings(), list.pid_list)
      requires |threads| == |list.Embeddings()| && AllHaveCounters(counts, threads, 2)
      ensures SameShape(counts, counts')
      ensures Total(counts', 0) == Total(counts, 0) + |Triangles(graph.Adjacency())|
      ensures Total(counts', 1) == Total(counts, 1) + |Wedges(graph.Adjacency())|
    {
      hide *;
      counts' := Aggregate(1, list, threads, counts);
      ThreeCounted(list.Embeddings(), list.pid_list);
    }

    lemma ThreeCounted(es: seq<seq<nat>>, pids: seq<nat>)
      requires Ready() && ReadyToCount(1, es, pids)
      ensures HitsUpTo(graph.Adjacency(), es, Ext(), |es|, 0) == |Triangles(graph.Adjacency())|
      ensures HitsUpTo(graph.Adjacency(), es, Ext(), |es|, 1) == |Wedges(graph.Adjacency())|
    {
      RowsAreRows(graph);
      HitsCountThrees(graph.Adjacency(), graph.Rows(), es);
    }

    /** Mining 4-motifs: over all threads, each counter gains the number of vertex sets inducing its motif. */
    method AggregateFour(list: EmbeddingList, threads: seq<nat>, counts: seq<seq<nat>>) returns (counts': seq<seq<nat>>)
      requires Ready() && list.Valid() && list.last_level == 2
      requires ReadyToCount(2, list.Embeddings(), list.pid_list)
      requires |threads| == |list.Embeddings()| && AllHaveCounters(counts, threads, 3)
      ensures SameShape(counts, counts')
      ensures forall pid :: 0 <= pid < 6 ==>
                Total(counts', pid) == Total(counts, pid) + |MotifSets(graph.Adjacency(), pid)|
    {
      hide *;
      counts' := Aggregate(2, list, threads, counts);
      FourCounted(list.Embeddings(), list.pid_list);
    }

    lemma FourCounted(es: seq<seq<nat>>, pids: seq<nat>)
      requires Ready() && ReadyToCount(2, es, pids)
      ensures forall pid :: 0 <= pid < 6 ==>
                HitsUpTo(graph.Adjacency(), es, Ext(), |es|, pid) == |MotifSets(graph.Adjacency(), pid)|
    {
      RowsAreRows(graph);
      forall pid | 0 <= pid < 6
        ensures HitsUpTo(graph.Adjacency(), es, Ext(), |es|, pid) == |MotifSets(graph.Adjacency(), pid)|
      {
        HitsCountSets(graph.Adjacency(), graph.Rows(), es, pid);
      }
    }

    // ---------- Cliques on the oriented graph ----------

    /** The graph has been oriented: lists are sorted and without self-loops. */
    ghost predicate ReadyDag() {
      graph.Simple() && Loopless(graph.Adjacency())
    }

    ghost function ExtClique(): seq<nat> -> seq<nat> {
      CliqueExt(graph.Adjacency(), graph.Rows())
    }

    /** Is dst in the oriented list of each of the first `end` vertices? */
    method IsAllConnectedDag(dst: nat, emb: seq<nat>, end: nat) returns (all: bool)
      requires ReadyDag() && InRange(graph.Adjacency(), emb) && end <= |emb|
      ensures all <==> forall i :: 0 <= i < end ==> Adj(graph.Adjacency(), emb[i], dst)
    {
      all := true;
      for i := 0 to end
        invariant forall k :: 0 <= k < i ==> Adj(graph.Adjacency(), emb[k], dst)
      {
        var connected := Miner.IsConnectedDag(graph, dst, emb[i]);
        if !connected {
          return false;
        }
      }
    }

    lemma LastRow(emb: seq<nat>)
      requires ReadyDag() && InRange(graph.Adjacency(), emb)
      ensures emb != [] && emb[|emb| - 1] + 1 < |graph.vertices|
      ensures graph.vertices[emb[|emb| - 1]] <= graph.vertices[emb[|emb| - 1] + 1] <= |graph.edges|
      ensures ExtClique()(emb) == Filter(graph.N(emb[|emb| - 1]), JoinedToFront(graph.Adjacency(), emb))
      ensures forall d :: JoinedToFront(graph.Adjacency(), emb)(d)
                     <==> forall i :: 0 <= i < |emb| - 1 ==> Adj(graph.Adjacency(), emb[i], d)
    {
    }

    /** How many vertices extend the chain emb. */
    method CountClique(emb: seq<nat>) returns (n: nat)
      requires ReadyDag() && InRange(graph.Adjacency(), emb)
      ensures n == |ExtClique()(emb)|
    {
      hide *;
      LastRow(emb);
      ghost var p := JoinedToFront(graph.Adjacency(), emb);
      var row := graph.N(emb[|emb| - 1]);
      n := 0;
      FilterNone(row, p);
      for e := 0 to |row|
        invariant n == |Filter(row[..e], p)|
      {
        FilterStep(row, p, e);
        var all := IsAllConnectedDag(row[e], emb, |emb| - 1);
        if all {
          n := n + 1;
        }
      }
      assert row[..|row|] == row;
    }

    /** The first pass: extensions per chain, or their sum at the last level. */
    method CountCliques(list: EmbeddingList, level: nat, num: nat) returns (counts: seq<nat>, num': nat)
      requires ReadyDag() && list.Valid() && level == list.last_level && 3 <= max_size
      requires forall e :: e in list.Embeddings() ==> InRange(graph.Adjacency(), e)
      ensures level < max_size - 2 ==> CountsExt(list.Embeddings(), ExtClique(), counts) && num' == num
      ensures level >= max_size - 2 ==> num' == num + |Pairs(list.Embeddings(), ExtClique(), |list.Embeddings()|)|
    {
      hide *;
      counts, num' := [], num;
      ghost var es, ext := list.Embeddings(), ExtClique();
      ListWidth(list);
      PairsGrow(es, ext, 0);
      for pos := 0 to |list.vid_lists[level]|
        invariant level < max_size - 2 ==> CountsSoFar(es, ext, counts, pos) && num' == num
        invariant level >= max_size - 2 ==> num' == num + |Pairs(es, ext, pos)|
      {
        ListReadable(list, pos);
        var emb := list.GetEmbedding(level, pos);
        assert es[pos] in es;
        PairsGrow(es, ext, pos);
        var n := CountClique(emb);
        CountsGrow(es, ext, counts, pos, n);
        if level < max_size - 2 {
          counts := counts + [n];
        } else {
          num' := num' + n;
        }
      }
      CountsDone(es, ext, counts);
    }

    /** The second pass over one chain. */
    method WriteClique(list: EmbeddingList, level: nat, pos: nat, emb: seq<nat>, start: nat,
                       ghost w: Writing, ghost done: seq<(nat, nat)>)
      requires ReadyDag() && InRange(graph.Adjacency(), emb)
      requires Written(list, level, w, done) && start == |done| && |done| + |ExtClique()(emb)| <= w.size
      modifies list
      ensures Written(list, level, w, done + Tagged(pos, ExtClique()(emb)))
    {
      hide *;
      LastRow(emb);
      ghost var p := JoinedToFront(graph.Adjacency(), emb);
      var row := graph.N(emb[|emb| - 1]);
      var start' := start;
      FilterNone(row, p);
      TaggedNone(done, pos);
      for e := 0 to |row|
        invariant start' == start + |Filter(row[..e], p)|
        invariant Written(list, level, w, done + Tagged(pos, Filter(row[..e], p)))
      {
        ghost var before := Filter(row[..e], p);
        FilterStep(row, p, e);
        FilterPrefix(row, p, e + 1);
        TaggedStep(done, pos, before, row[e]);
        var all := IsAllConnectedDag(row[e], emb, |emb| - 1);
        if all {
          WritePair(list, level, pos, start', row[e], w, done + Tagged(pos, before));
          start' := start' + 1;
        }
        assert before + [] == before;
      }
      assert row[..|row|] == row;
    }

    method WritePair(list: EmbeddingList, level: nat, pos: nat, start: nat, dst: nat, ghost w: Writing,
                     ghost done: seq<(nat, nat)>)
      requires Written(list, level, w, done) && start == |done| < w.size
      modifies list`vid_lists, list`idx_lists
      ensures Written(list, level, w, done + [(pos, dst)])
    {
      list.SetIdx(level + 1, start, pos);
      list.SetVid(level + 1, start, dst);
    }

    /** The second pass over the level. */
    method WriteCliques(list: EmbeddingList, level: nat, indices: seq<nat>, ghost counts: seq<nat>, ghost w: Writing)
      requires ReadyDag() && 1 <= level && IsLevel(w, level)
      requires forall e :: e in w.es ==> InRange(graph.Adjacency(), e)
      requires CountsExt(w.es, ExtClique(), counts) && IsPrefixSum(counts, indices) && w.size == indices[|counts|]
      requires Written(list, level, w, [])
      modifies list
      ensures Written(list, level, w, Pairs(w.es, ExtClique(), |w.es|)) && |Pairs(w.es, ExtClique(), |w.es|)| == w.size
    {
      hide *;
      ghost var ext := ExtClique();
      IndicesWidth(w.es, ext, counts, indices);
      NoPairs(w.es, ext);
      WrittenWidth(list, level, w, []);
      var n := |list.vid_lists[level]|;
      for pos := 0 to n
        invariant Written(list, level, w, Pairs(w.es, ext, pos))
      {
        BlockFits(w.es, ext, counts, indices, pos);
        assert w.es[pos] in w.es;
        WrittenReadable(list, level, w, Pairs(w.es, ext, pos), pos);
        var emb := list.GetEmbedding(level, pos);
        WriteClique(list, level, pos, emb, indices[pos], w, Pairs(w.es, ext, pos));
      }
      PairsCount(w.es, ext, counts, indices, |w.es|);
    }

    /** Extension for cliques: the next level of chains, or at the last level only their number. */
    method ExtendClique(level: nat, list: EmbeddingList, num: nat) returns (num': nat)
      requires ReadyDag() && list.Valid() && level == list.last_level && 3 <= max_size && level <= max_size - 2
      requires level < max_size - 2 ==> level + 1 < list.max_level
      requires forall e :: e in list.Embeddings() ==> InRange(graph.Adjacency(), e)
      modifies list
      ensures list.Valid() && list.max_level == old(list.max_level)
      ensures level < max_size - 2 ==>
                && num' == num && list.last_level == level + 1
                && list.Embeddings() == NextLevel(old(list.Embeddings()), ExtClique())
      ensures level == max_size - 2 ==>
                && num' == num + |NextLevel(old(list.Embeddings()), ExtClique())|
                && list.Embeddings() == old(list.Embeddings())
    {
      var counts;
      counts, num' := CountCliques(list, level, num);
      if level == max_size - 2 {
        return;
      }
      FillCliques(list, level, counts);
    }

    method FillCliques(list: EmbeddingList, level: nat, counts: seq<nat>)
      requires ReadyDag() && list.Valid() && level == list.last_level && level + 1 < list.max_level
      requires forall e :: e in list.Embeddings() ==> InRange(graph.Adjacency(), e)
      requires CountsExt(list.Embeddings(), ExtClique(), counts)
      modifies list
      ensures list.Valid() && list.max_level == old(list.max_level) && list.last_level == level + 1
      ensures list.Embeddings() == NextLevel(old(list.Embeddings()), ExtClique())
    {
      hide ReadyDag, CountsExt, InRange;
      var indices := PrefixSum(counts);
      ghost var w := Writing(graph.Adjacency(), list.vid_lists, list.idx_lists, list.Embeddings(), indices[|counts|]);
      list.AddLevel(indices[|counts|]);
      WriteCliques(list, level, indices, counts, w);
      WrittenIsNext(list, level, w, ExtClique());
    }
  }

  // ---------- Counters ----------

  /** How many motifs have one vertex more than an embedding of n. */
  function Kinds(n: nat): nat {
    if n == 2 then 2 else 6
  }

  /** There is a counter for each of them. */
  ghost predicate HasCounters(counter: seq<nat>, n: nat) {
    |counter| >= Kinds(n)
  }

  ghost predicate AllHaveCounters(counts: seq<seq<nat>>, threads: seq<nat>, n: nat) {
    forall pos :: 0 <= pos < |threads| ==> threads[pos] < |counts| && HasCounters(counts[threads[pos]], n)
  }

  ghost predicate SameShape(counts: seq<seq<nat>>, counts': seq<seq<nat>>) {
    |counts'| == |counts| && forall t :: 0 <= t < |counts| ==> |counts'[t]| == |counts[t]|
  }

  lemma SameShapeRefl(counts: seq<seq<nat>>)
    ensures SameShape(counts, counts)
  {
  }

  lemma SameShapeUpdate(counts: seq<seq<nat>>, counts': seq<seq<nat>>, t: nat, counter: seq<nat>)
    requires SameShape(counts, counts') && t < |counts'| && |counter| == |counts'[t]|
    ensures SameShape(counts, counts'[t := counter])
  {
  }

  lemma CounterWidth(counter: seq<nat>, n: nat)
    requires HasCounters(counter, n)
    ensures |counter| >= Kinds(n)
  {
  }

  lemma SameWidth(counter: seq<nat>, counter': seq<nat>, n: nat)
    requires HasCounters(counter, n) && |counter'| == |counter|
    ensures HasCounters(counter', n)
  {
  }

  lemma CountersAt(counts: seq<seq<nat>>, counts': seq<seq<nat>>, threads: seq<nat>, n: nat, pos: nat)
    requires SameShape(counts, counts') && AllHaveCounters(counts, threads, n) && pos < |threads|
    ensures threads[pos] < |counts| == |counts'| && HasCounters(counts'[threads[pos]], n)
  {
  }

  lemma NothingCounted(adj: Adjacency, es: seq<seq<nat>>, ext: seq<nat> -> seq<nat>, counts: seq<seq<nat>>)
    ensures forall t, q :: HitsBy(adj, es, ext, [], t, q) == 0
    ensures forall q :: HitsUpTo(adj, es, ext, 0, q) == 0
  {
  }

  lemma HitsByNext(adj: Adjacency, es: seq<seq<nat>>, ext: seq<nat> -> seq<nat>, threads: seq<nat>, pos: nat, t: nat,
                   q: nat)
    requires pos < |threads| <= |es|
    ensures HitsBy(adj, es, ext, threads[..pos + 1], t, q)
            == HitsBy(adj, es, ext, threads[..pos], t, q)
               + if threads[pos] == t then Hits(adj, es[pos], ext(es[pos]), q) else 0
  {
    assert threads[..pos + 1][..pos] == threads[..pos];
  }

  lemma HitsUpToStep(adj: Adjacency, es: seq<seq<nat>>, ext: seq<nat> -> seq<nat>, m: nat, q: nat)
    ensures HitsUpTo(adj, es, ext, 0, q) == 0
    ensures m < |es| ==>
              HitsUpTo(adj, es, ext, m + 1, q) == HitsUpTo(adj, es, ext, m, q) + Hits(adj, es[m], ext(es[m]), q)
  {
  }

  /** The thread of position pos has counted it in its own counter. */
  lemma CountedNext(adj: Adjacency, es: seq<seq<nat>>, ext: seq<nat> -> seq<nat>, threads: seq<nat>, pos: nat,
                    counts: seq<seq<nat>>, before: seq<seq<nat>>, counter: seq<nat>)
    requires pos < |threads| <= |es| && threads[pos] < |counts| == |before|
    requires forall q :: Cell(counter, q) == Cell(before[threads[pos]], q) + Hits(adj, es[pos], ext(es[pos]), q)
    requires forall t, q :: 0 <= t < |counts| ==>
               Cell(before[t], q) == Cell(counts[t], q) + HitsBy(adj, es, ext, threads[..pos], t, q)
    requires forall q :: Total(before, q) == Total(counts, q) + HitsUpTo(adj, es, ext, pos, q)
    ensures var after := before[threads[pos] := counter];
            && (forall t, q :: 0 <= t < |counts| ==>
                  Cell(after[t], q) == Cell(counts[t], q) + HitsBy(adj, es, ext, threads[..pos + 1], t, q))
            && forall q :: Total(after, q) == Total(counts, q) + HitsUpTo(adj, es, ext, pos + 1, q)
  {
    hide *;
    var after := before[threads[pos] := counter];
    forall t, q | 0 <= t < |counts|
      ensures Cell(after[t], q) == Cell(counts[t], q) + HitsBy(adj, es, ext, threads[..pos + 1], t, q)
    {
      HitsByNext(adj, es, ext, threads, pos, t, q);
    }
    forall q ensures Total(after, q) == Total(counts, q) + HitsUpTo(adj, es, ext, pos + 1, q) {
      HitsUpToStep(adj, es, ext, pos, q);
      TotalUpdated(before, threads[pos], counter, q, Hits(adj, es[pos], ext(es[pos]), q));
    }
  }

  lemma NoHits(adj: Adjacency, e: seq<nat>)
    ensures forall q :: Hits(adj, e, [], q) == 0
  {
  }

  lemma ListWidth(list: EmbeddingList)
    requires list.Valid()
    ensures list.last_level < |list.vid_lists| && |list.Embeddings()| == |list.vid_lists[list.last_level]|
  {
  }

  lemma ListReadable(list: EmbeddingList, pos: nat)
    requires list.Valid() && pos < |list.Embeddings()|
    ensures 1 <= list.last_level && Linked(list.vid_lists, list.idx_lists, list.last_level)
    ensures list.last_level < |list.vid_lists| && pos < |list.vid_lists[list.last_level]|
    ensures Embedding(list.vid_lists, list.idx_lists, list.last_level, pos) == list.Embeddings()[pos]
  {
  }

  // ---------- Blocks of the new level ----------

  lemma TaggedStep(done: seq<(nat, nat)>, pos: nat, ds: seq<nat>, d: nat)
    ensures |Tagged(pos, ds)| == |ds|
    ensures done + Tagged(pos, ds + [d]) == done + Tagged(pos, ds) + [(pos, d)]
  {
  }

  lemma TaggedNone(done: seq<(nat, nat)>, pos: nat)
    ensures done + Tagged(pos, []) == done
  {
  }

  lemma TaggedConcat(done: seq<(nat, nat)>, pos: nat, ds: seq<nat>, ds': seq<nat>)
    ensures |Tagged(pos, ds)| == |ds|
    ensures done + Tagged(pos, ds + ds') == done + Tagged(pos, ds) + Tagged(pos, ds')
  {
  }

  lemma {:induction false} ExtPrefix(adj: Adjacency, rows: seq<seq<nat>>, e: seq<nat>, i: nat)
    requires i <= |e|
    ensures |ExtUpTo(adj, rows, e, i)| <= |ExtUpTo(adj, rows, e, |e|)|
    decreases |e| - i
  {
    hide *;
    if i < |e| {
      ExtSplits(adj, rows, e, i + 1);
      ExtPrefix(adj, rows, e, i + 1);
    }
  }

  lemma IndicesWidth(es: seq<seq<nat>>, ext: seq<nat> -> seq<nat>, counts: seq<nat>, indices: seq<nat>)
    requires CountsExt(es, ext, counts) && IsPrefixSum(counts, indices)
    ensures |es| == |counts| && |indices| == |es| + 1
  {
  }

  lemma NoPairs(es: seq<seq<nat>>, ext: seq<nat> -> seq<nat>)
    ensures Pairs(es, ext, 0) == []
  {
  }

  /** The scan of the counts gives the start of each embedding's block. */
  lemma {:induction false} PairsCount(es: seq<seq<nat>>, ext: seq<nat> -> seq<nat>, counts: seq<nat>,
                                      indices: seq<nat>, m: nat)
    requires m <= |es| && CountsExt(es, ext, counts) && IsPrefixSum(counts, indices)
    ensures |Pairs(es, ext, m)| == indices[m]
  {
    if m > 0 {
      PairsCount(es, ext, counts, indices, m - 1);
    }
  }

  /** A block starts where the one before ends, and fits. */
  lemma BlockFits(es: seq<seq<nat>>, ext: seq<nat> -> seq<nat>, counts: seq<nat>, indices: seq<nat>, pos: nat)
    requires pos < |es| && CountsExt(es, ext, counts) && IsPrefixSum(counts, indices)
    ensures |indices| == |es| + 1
    ensures |Pairs(es, ext, pos)| == indices[pos]
    ensures |Pairs(es, ext, pos)| + |ext(es[pos])| <= indices[|counts|]
    ensures Pairs(es, ext, pos + 1) == Pairs(es, ext, pos) + Tagged(pos, ext(es[pos]))
  {
    PairsCount(es, ext, counts, indices, pos);
    PairsCount(es, ext, counts, indices, pos + 1);
    PrefixMonotone(counts, indices);
  }
}
