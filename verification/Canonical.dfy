/** The canonicality test of vertex-induced exploration, and why it meets every connected
    vertex set exactly once (sansa/include/pangolin_cpu/vertex_miner.h:255-269,
    sansa/include/subgraph.h:76-90). */
module Canonical {
  import opened Counting
  import opened CsrGraph

  /** The test passes: dst may be appended to e, having been reached from position idx. */
  predicate Accepts(adj: Adjacency, e: seq<nat>, idx: nat, dst: nat) {
    && e != [] && dst > e[0]
    && (forall i :: 1 <= i < |e| ==> dst != e[i])
    && (forall i :: 0 <= i < idx && i < |e| ==> !Adj(adj, e[i], dst))
    && (forall i :: idx < i < |e| ==> dst >= e[i])
  }

  /** u is appended to p by the extension loop. */
  ghost predicate CanonicalStep(adj: Adjacency, p: seq<nat>, u: nat) {
    exists idx: nat :: idx < |p| && Adj(adj, p[idx], u) && Accepts(adj, p, idx, u)
  }

  /** An embedding reached by the exploration: every vertex passed the test against its prefix. */
  ghost predicate IsCanonical(adj: Adjacency, e: seq<nat>) {
    && e != [] && e[0] < |adj|
    && forall j :: 1 <= j < |e| ==> CanonicalStep(adj, e[..j], e[j])
  }

  /** No way to split s in two without an edge between the parts. */
  ghost predicate Connected(adj: Adjacency, s: set<nat>) {
    && s != {} && s <= Below(|adj|)
    && forall t: set<nat> :: t < s && t != {} ==> exists u, v :: u in t && v in s - t && Adj(adj, u, v)
  }

  // ---------- Greedy sequences ----------

  /** The vertices of s outside p with a neighbour in p. */
  ghost predicate InFrontier(adj: Adjacency, s: set<nat>, p: seq<nat>, u: nat) {
    u in s && u !in p && exists i :: 0 <= i < |p| && Adj(adj, p[i], u)
  }

  ghost predicate IsNext(adj: Adjacency, s: set<nat>, p: seq<nat>, u: nat) {
    InFrontier(adj, s, p, u) && forall w :: InFrontier(adj, s, p, w) ==> u <= w
  }

  /** p starts at the least vertex of s and always goes on with the least vertex of the frontier. */
  ghost predicate IsGreedy(adj: Adjacency, s: set<nat>, p: seq<nat>) {
    && p != [] && p[0] in s && (forall w :: w in s ==> p[0] <= w)
    && forall j :: 1 <= j < |p| ==> IsNext(adj, s, p[..j], p[j])
  }

  lemma CanonicalDistinct(adj: Adjacency, e: seq<nat>)
    requires IsCanonical(adj, e)
    ensures NoDuplicates(e)
    ensures forall j :: 1 <= j < |e| ==> e[0] < e[j]
    ensures forall j :: 0 <= j < |e| ==> e[j] !in e[..j]
  {
    forall i, j | 0 <= i < j < |e| ensures e[i] != e[j] && e[0] < e[j] {
      assert CanonicalStep(adj, e[..j], e[j]);
      assert e[..j][i] == e[i] && e[..j][0] == e[0];
    }
  }

  /** The test's idx is the first position adjacent to the new vertex, and every later position is smaller. */
  lemma StepBounds(adj: Adjacency, p: seq<nat>, u: nat, i: nat, x: nat)
    requires p != [] && CanonicalStep(adj, p, u)
    requires i < x < |p| && Adj(adj, p[i], u)
    ensures p[x] <= u
  {
  }

  lemma LaterIsLarger(adj: Adjacency, e: seq<nat>, j: nat, w: nat)
    requires IsCanonical(adj, e) && 1 <= j < |e|
    requires InFrontier(adj, Elements(e), e[..j], w)
    ensures e[j] <= w
  {
    var m :| 0 <= m < |e| && e[m] == w;
    assert forall y :: 0 <= y < j ==> e[..j][y] == e[y];
    if m > j {
      var i :| 0 <= i < j && Adj(adj, e[..j][i], w);
      assert e[..m][i] == e[..j][i] && e[..m][j] == e[j];
      StepBounds(adj, e[..m], w, i, j);
    }
  }

  /** What the test accepts is greedy for the set it makes up. */
  lemma CanonicalIsGreedy(adj: Adjacency, e: seq<nat>)
    requires IsCanonical(adj, e)
    ensures IsGreedy(adj, Elements(e), e)
  {
    CanonicalDistinct(adj, e);
    var s := Elements(e);
    forall j | 1 <= j < |e| ensures IsNext(adj, s, e[..j], e[j]) {
      assert CanonicalStep(adj, e[..j], e[j]);
      assert InFrontier(adj, s, e[..j], e[j]);
      forall w | InFrontier(adj, s, e[..j], w) ensures e[j] <= w {
        LaterIsLarger(adj, e, j, w);
      }
    }
  }

  lemma FirstAdjacent(adj: Adjacency, p: seq<nat>, u: nat, i: nat) returns (idx: nat)
    requires i < |p| && Adj(adj, p[i], u)
    ensures idx < |p| && Adj(adj, p[idx], u) && forall x :: 0 <= x < idx ==> !Adj(adj, p[x], u)
  {
    idx := 0;
    while !Adj(adj, p[idx], u)
      invariant idx <= i
      invariant forall x :: 0 <= x < idx ==> !Adj(adj, p[x], u)
      decreases i - idx
    {
      idx := idx + 1;
    }
  }

  lemma GreedyStep(adj: Adjacency, s: set<nat>, p: seq<nat>, j: nat)
    requires IsGreedy(adj, s, p) && 1 <= j < |p|
    ensures CanonicalStep(adj, p[..j], p[j])
  {
    var front, u := p[..j], p[j];
    assert IsNext(adj, s, front, u);
    var i :| 0 <= i < |front| && Adj(adj, front[i], u);
    var idx := FirstAdjacent(adj, front, u, i);
    forall x | idx < x < |front| ensures front[x] <= u {
      assert IsNext(adj, s, p[..x], p[x]);
      assert p[..x][idx] == front[idx];
      assert forall y :: 0 <= y < x ==> p[..x][y] == front[y];
      assert InFrontier(adj, s, p[..x], u);
    }
    assert u != front[0];
    assert Accepts(adj, front, idx, u);
  }

  /** A greedy sequence passes the test at every step. */
  lemma GreedyIsCanonical(adj: Adjacency, s: set<nat>, p: seq<nat>)
    requires s <= Below(|adj|) && IsGreedy(adj, s, p)
    ensures IsCanonical(adj, p)
  {
    forall j | 1 <= j < |p| ensures CanonicalStep(adj, p[..j], p[j]) {
      GreedyStep(adj, s, p, j);
    }
  }

  lemma GreedyPrefix(adj: Adjacency, s: set<nat>, p: seq<nat>, m: nat)
    requires IsGreedy(adj, s, p) && 1 <= m <= |p|
    ensures IsGreedy(adj, s, p[..m])
  {
    forall j | 1 <= j < m ensures IsNext(adj, s, p[..m][..j], p[..m][j]) {
      assert p[..m][..j] == p[..j];
      assert IsNext(adj, s, p[..j], p[j]);
    }
  }

  lemma {:induction false} GreedyUnique(adj: Adjacency, s: set<nat>, p: seq<nat>, q: seq<nat>)
    requires IsGreedy(adj, s, p) && IsGreedy(adj, s, q) && |p| == |q|
    ensures p == q
  {
    if |p| == 1 {
    } else {
      var j := |p| - 1;
      GreedyPrefix(adj, s, p, j);
      GreedyPrefix(adj, s, q, j);
      GreedyUnique(adj, s, p[..j], q[..j]);
      assert IsNext(adj, s, p[..j], p[j]) && IsNext(adj, s, q[..j], q[j]);
      assert p == p[..j] + [p[j]] && q == q[..j] + [q[j]];
    }
  }

  lemma LeastOf(s: set<nat>) returns (u: nat)
    requires s != {}
    ensures u in s && forall w :: w in s ==> u <= w
    decreases s
  {
    u :| u in s;
    if s != {u} {
      var v := LeastOf(s - {u});
      assert forall w :: w in s ==> w == u || w in s - {u};
      if v < u {
        u := v;
      }
    } else {
      assert forall w :: w in s ==> w == u;
    }
  }

  /** A greedy sequence that does not yet cover a connected set can be continued. */
  lemma GreedyContinues(adj: Adjacency, s: set<nat>, p: seq<nat>) returns (u: nat)
    requires Connected(adj, s) && IsGreedy(adj, s, p) && Elements(p) < s
    ensures IsGreedy(adj, s, p + [u]) && u in s && u !in p
  {
    assert p[0] in Elements(p);
    var a, b :| a in Elements(p) && b in s - Elements(p) && Adj(adj, a, b);
    var frontier := set w | w in s && InFrontier(adj, s, p, w);
    assert InFrontier(adj, s, p, b) by {
      var i :| 0 <= i < |p| && p[i] == a;
    }
    assert b in frontier;
    u := LeastOf(frontier);
    assert forall w :: InFrontier(adj, s, p, w) ==> w in frontier;
    var q := p + [u];
    forall j | 1 <= j < |q| ensures IsNext(adj, s, q[..j], q[j]) {
      if j < |p| {
        assert q[..j] == p[..j];
      } else {
        assert q[..j] == p;
      }
    }
  }

  lemma GreedyCompletes(adj: Adjacency, s: set<nat>, p: seq<nat>) returns (q: seq<nat>)
    requires Connected(adj, s) && IsGreedy(adj, s, p) && Elements(p) <= s
    ensures IsGreedy(adj, s, q) && Elements(q) == s
    decreases s - Elements(p)
  {
    if Elements(p) == s {
      q := p;
    } else {
      var u := GreedyContinues(adj, s, p);
      assert Elements(p + [u]) == Elements(p) + {u};
      q := GreedyCompletes(adj, s, p + [u]);
    }
  }

  // ---------- The three parts of "exactly once" ----------

  lemma CanonicalNonEmpty(adj: Adjacency, e: seq<nat>)
    requires IsCanonical(adj, e)
    ensures |e| >= 1
  {
  }

  lemma OneConnected(adj: Adjacency, e: seq<nat>)
    requires IsCanonical(adj, e) && |e| == 1
    ensures Connected(adj, Elements(e))
  {
    assert Elements(e) == {e[0]};
  }

  /** The last vertex is adjacent to an earlier one. */
  lemma LastNeighbour(adj: Adjacency, e: seq<nat>) returns (a: nat)
    requires IsCanonical(adj, e) && |e| > 1
    ensures a in Elements(e[..|e| - 1]) && Adj(adj, a, e[|e| - 1])
    ensures Elements(e) == Elements(e[..|e| - 1]) + {e[|e| - 1]}
  {
    hide Accepts;
    var j := |e| - 1;
    assert CanonicalStep(adj, e[..j], e[j]);
    hide IsCanonical;
    var idx :| 0 <= idx < j && Adj(adj, e[..j][idx], e[j]);
    a := e[..j][idx];
    assert e == e[..j] + [e[j]];
  }

  lemma CanonicalFront(adj: Adjacency, e: seq<nat>)
    requires IsCanonical(adj, e) && |e| > 1
    ensures IsCanonical(adj, e[..|e| - 1])
  {
    var f := e[..|e| - 1];
    forall j | 1 <= j < |f| ensures CanonicalStep(adj, f[..j], f[j]) {
      assert f[..j] == e[..j];
    }
  }

  lemma ConnectedGrows(adj: Adjacency, s: set<nat>, a: nat, u: nat)
    requires Undirected(adj) && Connected(adj, s) && a in s && Adj(adj, a, u)
    ensures Connected(adj, s + {u})
  {
    var s' := s + {u};
    assert u < |adj|;
    forall t: set<nat> | t < s' && t != {}
      ensures exists x, y :: x in t && y in s' - t && Adj(adj, x, y)
    {
      if a in t && u !in t {
        assert Adj(adj, a, u) && u in s' - t;
      } else if a !in t && u in t {
        assert Adj(adj, u, a) && a in s' - t;
      } else {
        var t' := t * s;
        assert t' != {} by {
          if a in t { assert a in t'; } else { var z :| z in t; assert z in t'; }
        }
        assert t' < s by {
          if a in t {
            var z :| z in s' && z !in t;
            assert z in s && z !in t';
          } else {
            assert a in s && a !in t';
          }
        }
        var x, y :| x in t' && y in s - t' && Adj(adj, x, y);
        assert x in t && y in s' - t;
      }
    }
  }

  /** Everything the exploration reaches is a connected set of as many vertices. */
  lemma {:induction false} CanonicalConnected(adj: Adjacency, e: seq<nat>)
    requires Undirected(adj) && IsCanonical(adj, e)
    ensures Connected(adj, Elements(e)) && |Elements(e)| == |e|
  {
    hide *;
    CanonicalDistinct(adj, e);
    NoDuplicatesCard(e);
    CanonicalNonEmpty(adj, e);
    if |e| == 1 {
      OneConnected(adj, e);
    } else {
      var j := |e| - 1;
      CanonicalFront(adj, e);
      CanonicalConnected(adj, e[..j]);
      var a := LastNeighbour(adj, e);
      ConnectedGrows(adj, Elements(e[..j]), a, e[j]);
    }
  }

  /** Two embeddings of the same set are the same embedding. */
  lemma CanonicalUnique(adj: Adjacency, e: seq<nat>, e': seq<nat>)
    requires Undirected(adj) && IsCanonical(adj, e) && IsCanonical(adj, e') && Elements(e) == Elements(e')
    ensures e == e'
  {
    CanonicalIsGreedy(adj, e);
    CanonicalIsGreedy(adj, e');
    CanonicalConnected(adj, e);
    CanonicalConnected(adj, e');
    GreedyUnique(adj, Elements(e), e, e');
  }

  /** Every connected set has an embedding. */
  lemma CanonicalExists(adj: Adjacency, s: set<nat>) returns (e: seq<nat>)
    requires Connected(adj, s)
    ensures IsCanonical(adj, e) && Elements(e) == s
  {
    var least := LeastOf(s);
    assert Elements([least]) == {least};
    e := GreedyCompletes(adj, s, [least]);
    GreedyIsCanonical(adj, s, e);
  }
}
