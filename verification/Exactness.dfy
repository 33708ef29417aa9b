/** Level-by-level extension with the canonicality test lists every connected
    vertex set exactly once (sansa/include/pangolin_cpu/vertex_miner.h:24-80). */
module Exactness {
  import opened Counting
  import opened CsrGraph
  import opened Canonical
  import opened Exploration

  /** rows are the sorted neighbour lists of adj. */
  ghost predicate RowsOf(adj: Adjacency, rows: seq<seq<nat>>) {
    && Loopless(adj) && |rows| == |adj|
    && forall v :: 0 <= v < |rows| ==> StrictlyIncreasing(rows[v]) && Elements(rows[v]) == adj[v]
  }

  ghost predicate InRange(adj: Adjacency, e: seq<nat>) {
    e != [] && forall i :: 0 <= i < |e| ==> e[i] < |adj|
  }

  ghost function AcceptAt(adj: Adjacency, e: seq<nat>, i: nat): nat -> bool {
    (d: nat) => Accepts(adj, e, i, d)
  }

  function Row(rows: seq<seq<nat>>, v: nat): seq<nat> {
    if v < |rows| then rows[v] else []
  }

  /** The accepted neighbours of the i-th vertex of e, in order. */
  ghost function RowExt(adj: Adjacency, rows: seq<seq<nat>>, e: seq<nat>, i: nat): seq<nat> {
    if i < |e| then Filter(Row(rows, e[i]), AcceptAt(adj, e, i)) else []
  }

  /** The accepted neighbours of the first i vertices of e, in the order the loops meet them. */
  ghost function ExtUpTo(adj: Adjacency, rows: seq<seq<nat>>, e: seq<nat>, i: nat): seq<nat> {
    if i == 0 then [] else ExtUpTo(adj, rows, e, i - 1) + RowExt(adj, rows, e, i - 1)
  }

  ghost function MotifExt(adj: Adjacency, rows: seq<seq<nat>>): seq<nat> -> seq<nat> {
    e => ExtUpTo(adj, rows, e, |e|)
  }

  ghost predicate StepBelow(adj: Adjacency, e: seq<nat>, i: nat, d: nat) {
    exists idx: nat :: idx < i && idx < |e| && Adj(adj, e[idx], d) && Accepts(adj, e, idx, d)
  }

  lemma RowExtExact(adj: Adjacency, rows: seq<seq<nat>>, e: seq<nat>, i: nat)
    requires RowsOf(adj, rows) && InRange(adj, e) && i < |e|
    ensures NoDuplicates(RowExt(adj, rows, e, i))
    ensures forall d :: d in RowExt(adj, rows, e, i) <==> Adj(adj, e[i], d) && Accepts(adj, e, i, d)
  {
    var row, p := rows[e[i]], AcceptAt(adj, e, i);
    FilterMembers(row, p);
    FilterNoDuplicates(row, p);
    forall d: nat ensures d in RowExt(adj, rows, e, i) <==> Adj(adj, e[i], d) && Accepts(adj, e, i, d) {
      assert d in row <==> d in Elements(row);
    }
  }

  lemma StepBelowSplits(adj: Adjacency, e: seq<nat>, i: nat, d: nat)
    requires 0 < i <= |e|
    ensures StepBelow(adj, e, i, d) <==>
              StepBelow(adj, e, i - 1, d) || (Adj(adj, e[i - 1], d) && Accepts(adj, e, i - 1, d))
  {
    if StepBelow(adj, e, i, d) {
      var idx: nat :| idx < i && idx < |e| && Adj(adj, e[idx], d) && Accepts(adj, e, idx, d);
      if idx < i - 1 {
        assert StepBelow(adj, e, i - 1, d);
      }
    }
  }

  /** The test rejects what an earlier position already reaches. */
  lemma StepBelowExcludes(adj: Adjacency, e: seq<nat>, i: nat, d: nat)
    requires StepBelow(adj, e, i, d)
    ensures !Accepts(adj, e, i, d)
  {
  }

  lemma ExtSplits(adj: Adjacency, rows: seq<seq<nat>>, e: seq<nat>, i: nat)
    ensures ExtUpTo(adj, rows, e, 0) == [] && NoDuplicates(ExtUpTo(adj, rows, e, 0))
    ensures i > 0 ==> ExtUpTo(adj, rows, e, i) == ExtUpTo(adj, rows, e, i - 1) + RowExt(adj, rows, e, i - 1)
  {
  }

  lemma NoStepBelow(adj: Adjacency, e: seq<nat>)
    ensures forall d :: !StepBelow(adj, e, 0, d)
  {
  }

  lemma {:induction false} ExtUpToExact(adj: Adjacency, rows: seq<seq<nat>>, e: seq<nat>, i: nat)
    requires RowsOf(adj, rows) && InRange(adj, e) && i <= |e|
    ensures NoDuplicates(ExtUpTo(adj, rows, e, i))
    ensures forall d :: d in ExtUpTo(adj, rows, e, i) <==> StepBelow(adj, e, i, d)
  {
    hide *;
    ExtSplits(adj, rows, e, i);
    if i > 0 {
      var before, found := ExtUpTo(adj, rows, e, i - 1), RowExt(adj, rows, e, i - 1);
      ExtUpToExact(adj, rows, e, i - 1);
      RowExtExact(adj, rows, e, i - 1);
      forall d ensures d in before + found <==> StepBelow(adj, e, i, d) {
        StepBelowSplits(adj, e, i, d);
      }
      forall d | d in before ensures d !in found {
        StepBelowExcludes(adj, e, i - 1, d);
      }
      NoDuplicatesConcat(before, found);
    } else {
      NoStepBelow(adj, e);
    }
  }

  lemma MotifExtExact(adj: Adjacency, rows: seq<seq<nat>>, e: seq<nat>)
    requires RowsOf(adj, rows) && InRange(adj, e)
    ensures NoDuplicates(MotifExt(adj, rows)(e))
    ensures forall d :: d in MotifExt(adj, rows)(e) <==> CanonicalStep(adj, e, d)
  {
    ExtUpToExact(adj, rows, e, |e|);
    forall d ensures StepBelow(adj, e, |e|, d) <==> CanonicalStep(adj, e, d) {
    }
  }

  /** es lists every embedding of k vertices that the test lets through, once each. */
  ghost predicate ListsCanonical(adj: Adjacency, es: seq<seq<nat>>, k: nat) {
    && NoDuplicates(es)
    && forall e :: e in es <==> |e| == k && IsCanonical(adj, e)
  }

  lemma CanonicalInRange(adj: Adjacency, e: seq<nat>)
    requires Loopless(adj) && IsCanonical(adj, e)
    ensures InRange(adj, e)
  {
    forall i | 0 <= i < |e| ensures e[i] < |adj| {
      if i > 0 {
        assert CanonicalStep(adj, e[..i], e[i]);
      }
    }
  }

  lemma CanonicalSplits(adj: Adjacency, x: seq<nat>)
    requires |x| > 1
    ensures IsCanonical(adj, x) <==>
              IsCanonical(adj, x[..|x| - 1]) && CanonicalStep(adj, x[..|x| - 1], x[|x| - 1])
  {
    var f := x[..|x| - 1];
    forall j | 1 <= j < |f| ensures f[..j] == x[..j] && f[j] == x[j] {
    }
  }

  /** The first level: edges from the smaller end. */
  lemma FirstLevel(adj: Adjacency, es: seq<seq<nat>>)
    requires Loopless(adj) && NoDuplicates(es)
    requires forall e :: e in es <==> |e| == 2 && Adj(adj, e[0], e[1]) && e[0] < e[1]
    ensures ListsCanonical(adj, es, 2)
  {
    forall e: seq<nat> | |e| == 2
      ensures IsCanonical(adj, e) <==> Adj(adj, e[0], e[1]) && e[0] < e[1]
    {
      assert e[..1] == [e[0]];
      if Adj(adj, e[0], e[1]) && e[0] < e[1] {
        assert Accepts(adj, [e[0]], 0, e[1]) && Adj(adj, [e[0]][0], e[1]);
      }
      if IsCanonical(adj, e) {
        assert CanonicalStep(adj, e[..1], e[1]);
      }
    }
  }

  /** Each further level. */
  lemma NextIsCanonical(adj: Adjacency, rows: seq<seq<nat>>, es: seq<seq<nat>>, k: nat)
    requires RowsOf(adj, rows) && ListsCanonical(adj, es, k) && k > 0
    ensures ListsCanonical(adj, NextLevel(es, MotifExt(adj, rows)), k + 1)
  {
    var ext := MotifExt(adj, rows);
    forall e | e in es
      ensures NoDuplicates(ext(e)) && forall d :: d in ext(e) <==> CanonicalStep(adj, e, d)
    {
      CanonicalInRange(adj, e);
      MotifExtExact(adj, rows, e);
    }
    NextLevelExact(es, ext);
    forall x ensures x in NextLevel(es, ext) <==> |x| == k + 1 && IsCanonical(adj, x) {
      assert x in NextLevel(es, ext) <==> IsExtension(es, ext, x);
      if |x| > 1 {
        CanonicalSplits(adj, x);
      }
    }
  }

  /** The connected sets of k vertices. */
  ghost predicate IsConnectedSet(adj: Adjacency, k: nat, s: set<nat>) {
    Connected(adj, s) && |s| == k
  }

  /** Exactly once: every position holds a connected k-vertex set, each such set is held, and at one position only. */
  ghost predicate HoldsEachOnce(adj: Adjacency, es: seq<seq<nat>>, k: nat) {
    && (forall i :: 0 <= i < |es| ==> IsConnectedSet(adj, k, Elements(es[i])))
    && (forall s :: IsConnectedSet(adj, k, s) ==> exists i :: 0 <= i < |es| && Elements(es[i]) == s)
    && (forall i, j :: 0 <= i < j < |es| ==> Elements(es[i]) != Elements(es[j]))
  }

  lemma ExactlyOnce(adj: Adjacency, es: seq<seq<nat>>, k: nat)
    requires Undirected(adj) && ListsCanonical(adj, es, k) && k > 0
    ensures HoldsEachOnce(adj, es, k)
  {
    forall i | 0 <= i < |es| ensures IsConnectedSet(adj, k, Elements(es[i])) {
      assert es[i] in es;
      CanonicalConnected(adj, es[i]);
    }
    forall s | IsConnectedSet(adj, k, s) ensures exists i :: 0 <= i < |es| && Elements(es[i]) == s {
      var e := CanonicalExists(adj, s);
      CanonicalConnected(adj, e);
      assert e in es;
    }
    forall i, j | 0 <= i < j < |es| ensures Elements(es[i]) != Elements(es[j]) {
      assert es[i] in es && es[j] in es;
      if Elements(es[i]) == Elements(es[j]) {
        CanonicalUnique(adj, es[i], es[j]);
      }
    }
  }

  /** The level after m further extensions of a first level. */
  ghost function LevelAfter(es: seq<seq<nat>>, ext: seq<nat> -> seq<nat>, m: nat): seq<seq<nat>> {
    if m == 0 then es else NextLevel(LevelAfter(es, ext, m - 1), ext)
  }

  lemma LevelAfterStep(es: seq<seq<nat>>, ext: seq<nat> -> seq<nat>, m: nat)
    ensures LevelAfter(es, ext, m) == if m == 0 then es else NextLevel(LevelAfter(es, ext, m - 1), ext)
  {
  }

  lemma RowsLoopless(adj: Adjacency, rows: seq<seq<nat>>)
    requires RowsOf(adj, rows)
    ensures Loopless(adj)
  {
  }

  /** A whole run from the edges: after m extensions, exactly the accepted embeddings of m + 2 vertices. */
  lemma {:induction false} EveryLevel(adj: Adjacency, rows: seq<seq<nat>>, es: seq<seq<nat>>, m: nat)
    requires RowsOf(adj, rows) && NoDuplicates(es)
    requires forall e :: e in es <==> |e| == 2 && Adj(adj, e[0], e[1]) && e[0] < e[1]
    ensures ListsCanonical(adj, LevelAfter(es, MotifExt(adj, rows), m), m + 2)
  {
    hide *;
    LevelAfterStep(es, MotifExt(adj, rows), m);
    if m == 0 {
      RowsLoopless(adj, rows);
      FirstLevel(adj, es);
    } else {
      EveryLevel(adj, rows, es, m - 1);
      NextIsCanonical(adj, rows, LevelAfter(es, MotifExt(adj, rows), m - 1), m + 1);
    }
  }

  /** A whole run from the edges lists each connected vertex set of its size at exactly one position. */
  lemma EveryLevelExactlyOnce(adj: Adjacency, rows: seq<seq<nat>>, es: seq<seq<nat>>, m: nat)
    requires Undirected(adj) && RowsOf(adj, rows) && NoDuplicates(es)
    requires forall e :: e in es <==> |e| == 2 && Adj(adj, e[0], e[1]) && e[0] < e[1]
    ensures HoldsEachOnce(adj, LevelAfter(es, MotifExt(adj, rows), m), m + 2)
  {
    EveryLevel(adj, rows, es, m);
    ExactlyOnce(adj, LevelAfter(es, MotifExt(adj, rows), m), m + 2);
  }
}
