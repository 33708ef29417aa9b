/** Counting cliques: level by level on the oriented graph
    (sansa/include/pangolin_cpu/vertex_miner.h:83-118), and by the nested loops of
    sansa/src/approx/GS/exact-counting/4clique.h on either graph. */
module CliqueMining {
  import opened Counting
  import opened CsrGraph
  import opened Cliques
  import opened Exploration
  import opened Exactness
  import opened Intersect

  /** d is joined to every vertex of e but the last. */
  ghost function JoinedToFront(adj: Adjacency, e: seq<nat>): nat -> bool {
    (d: nat) => forall i :: 0 <= i < |e| - 1 ==> Adj(adj, e[i], d)
  }

  /** The neighbours of the last vertex joined to all others too. */
  ghost function CliqueExtOf(adj: Adjacency, rows: seq<seq<nat>>, e: seq<nat>): seq<nat> {
    if e == [] then [] else Filter(Row(rows, e[|e| - 1]), JoinedToFront(adj, e))
  }

  ghost function CliqueExt(adj: Adjacency, rows: seq<seq<nat>>): seq<nat> -> seq<nat> {
    e => CliqueExtOf(adj, rows, e)
  }

  /** es lists every chain of k vertices once. */
  ghost predicate ListsChains(adj: Adjacency, es: seq<seq<nat>>, k: nat) {
    && NoDuplicates(es)
    && forall e :: e in es <==> e in ChainsOf(adj, k)
  }

  /** ds are, once each, the vertices that make a longer chain of e. */
  ghost predicate ExtendsExactly(adj: Adjacency, k: nat, e: seq<nat>, ds: seq<nat>) {
    NoDuplicates(ds) && forall d: nat :: d in ds <==> e + [d] in ChainsOf(adj, k + 1)
  }

  lemma CliqueExtExact(adj: Adjacency, rows: seq<seq<nat>>, k: nat, e: seq<nat>)
    requires RowsOf(adj, rows) && k > 0 && e in ChainsOf(adj, k)
    ensures ExtendsExactly(adj, k, e, CliqueExt(adj, rows)(e))
  {
    ChainsMember(adj, k, e);
    var last := e[|e| - 1];
    var p := JoinedToFront(adj, e);
    FilterMembers(rows[last], p);
    FilterNoDuplicates(rows[last], p);
    forall d: nat ensures d in CliqueExt(adj, rows)(e) <==> e + [d] in ChainsOf(adj, k + 1) {
      ChainsMember(adj, k + 1, e + [d]);
      assert d in rows[last] <==> d in Elements(rows[last]);
      ChainAppend(adj, e, d);
    }
  }

  lemma FirstChains(adj: Adjacency, es: seq<seq<nat>>)
    requires Loopless(adj) && NoDuplicates(es)
    requires forall e :: e in es <==> |e| == 2 && Adj(adj, e[0], e[1])
    ensures ListsChains(adj, es, 2)
  {
    forall e ensures e in es <==> e in ChainsOf(adj, 2) {
      ChainsMember(adj, 2, e);
      if |e| == 2 && Adj(adj, e[0], e[1]) {
        forall i, j | 0 <= i < j < |e| ensures Adj(adj, e[i], e[j]) {
          assert i == 0 && j == 1;
        }
      }
      if |e| == 2 && IsChain(adj, e) {
        assert Adj(adj, e[0], e[1]);
      }
    }
  }

  /** Extending every chain in every way lists the chains of one more vertex. */
  lemma NextChains(adj: Adjacency, rows: seq<seq<nat>>, es: seq<seq<nat>>, k: nat)
    requires RowsOf(adj, rows) && k > 0 && ListsChains(adj, es, k)
    ensures ListsChains(adj, NextLevel(es, CliqueExt(adj, rows)), k + 1)
  {
    var ext := CliqueExt(adj, rows);
    hide ChainsOf, CliqueExt, RowsOf, NextLevel;
    forall e | e in es ensures ExtendsExactly(adj, k, e, ext(e)) {
      CliqueExtExact(adj, rows, k, e);
    }
    NextLevelExact(es, ext);
    forall x | x in ChainsOf(adj, k + 1) ensures x in NextLevel(es, ext) {
      ChainFront(adj, k, x);
      var e, d := x[..k], x[k];
      assert e in es && e + [d] in ChainsOf(adj, k + 1);
      assert x[..|x| - 1] == e && x[|x| - 1] == d;
      NextLevelComplete(es, ext, x);
    }
    forall x | x in NextLevel(es, ext) ensures x in ChainsOf(adj, k + 1) {
      assert IsExtension(es, ext, x);
      var e, d := x[..|x| - 1], x[|x| - 1];
      assert e in es && d in ext(e);
      assert x == e + [d];
    }
  }

  lemma ListedChains(adj: Adjacency, es: seq<seq<nat>>, k: nat)
    requires ListsChains(adj, es, k)
    ensures |es| == |ChainsOf(adj, k)|
  {
    NoDuplicatesCard(es);
    assert Elements(es) == ChainsOf(adj, k);
  }

  // ---------- The 4-clique loop nest ----------

  /** The chains of four vertices beginning with p. */
  ghost function With(adj: Adjacency, p: seq<nat>): set<seq<nat>> {
    set x | x in ChainsOf(adj, 4) && p <= x
  }

  /** Those going on from p to a vertex of ds. */
  ghost function Via(adj: Adjacency, p: seq<nat>, ds: set<nat>): set<seq<nat>> {
    set x | x in ChainsOf(adj, 4) && p < x && x[|p|] in ds
  }

  lemma ViaStep(adj: Adjacency, p: seq<nat>, ds: set<nat>, d: nat)
    requires |p| < 4 && d !in ds
    ensures |Via(adj, p, ds + {d})| == |Via(adj, p, ds)| + |With(adj, p + [d])|
  {
    hide ChainsOf, IsChain;
    forall x | x in ChainsOf(adj, 4) ensures p + [d] <= x <==> p < x && x[|p|] == d {
      ChainsMember(adj, 4, x);
      if p < x && x[|p|] == d {
        assert x[..|p| + 1] == p + [d];
      }
    }
    assert Via(adj, p, ds + {d}) == Via(adj, p, ds) + With(adj, p + [d]);
    assert Via(adj, p, ds) !! With(adj, p + [d]);
  }

  lemma ViaNone(adj: Adjacency, p: seq<nat>)
    ensures |Via(adj, p, {})| == 0
  {
    assert Via(adj, p, {}) == {};
  }

  /** Chains through p all go on to a common neighbour of p. */
  lemma ViaAll(adj: Adjacency, p: seq<nat>, ds: set<nat>)
    requires |p| < 4
    requires forall d: nat :: d in ds <==> d < |adj| && forall i :: 0 <= i < |p| ==> Adj(adj, p[i], d)
    ensures With(adj, p) == Via(adj, p, ds)
  {
    forall x | x in With(adj, p) ensures x in Via(adj, p, ds) {
      ChainsMember(adj, 4, x);
      forall i | 0 <= i < |p| ensures Adj(adj, p[i], x[|p|]) {
        assert Adj(adj, x[i], x[|p|]);
      }
    }
  }

  /** Chains through three vertices: one for each common neighbour. */
  lemma WithThree(adj: Adjacency, a: nat, b: nat, c: nat)
    requires Loopless(adj) && a < |adj| && b < |adj| && c < |adj| && [a, b, c] in ChainsOf(adj, 3)
    ensures |With(adj, [a, b, c])| == |adj[a] * adj[b] * adj[c]|
  {
    var e := [a, b, c];
    ChainsMember(adj, 3, e);
    var ds := adj[a] * adj[b] * adj[c];
    var h := (d: nat) => [a, b, c, d];
    forall d | d in ds ensures h(d) in With(adj, e) {
      ChainAppend(adj, e, d);
      assert e + [d] == h(d);
      ChainsMember(adj, 4, h(d));
    }
    forall x | x in With(adj, e) ensures exists d :: d in ds && h(d) == x {
      ChainsMember(adj, 4, x);
      assert Adj(adj, x[0], x[3]) && Adj(adj, x[1], x[3]) && Adj(adj, x[2], x[3]);
      assert x == x[..3] + [x[3]] && x[..3] == e;
      assert x[3] in ds && h(x[3]) == x;
    }
    forall d, d' | d in ds && d' in ds && h(d) == h(d') ensures d == d' {
      assert h(d)[3] == d && h(d')[3] == d';
    }
    BijectionCard(ds, With(adj, e), h);
  }

  lemma IntersectionElements(l: seq<nat>, r: seq<nat>, out: seq<nat>)
    requires IsIntersection(l, r, out)
    ensures StrictlyIncreasing(out) && Elements(out) == Elements(l) * Elements(r)
  {
  }

  lemma RowFacts(g: Csr, v: nat)
    requires g.Simple() && v < |g.Adjacency()|
    ensures v + 1 < |g.vertices| && g.vertices[v] <= g.vertices[v + 1] <= |g.edges|
    ensures StrictlyIncreasing(g.N(v)) && Elements(g.N(v)) == g.Adjacency()[v]
  {
  }

  lemma TriangleChain(adj: Adjacency, a: nat, b: nat, c: nat)
    requires Loopless(adj) && Adj(adj, a, b) && Adj(adj, a, c) && Adj(adj, b, c)
    ensures [a, b, c] in ChainsOf(adj, 3) && c < |adj|
  {
    var e := [a, b, c];
    forall i, j | 0 <= i < j < |e| ensures Adj(adj, e[i], e[j]) {
      assert i == 0 || i == 1;
    }
    ChainsMember(adj, 3, e);
  }

  lemma NextElement(s: seq<nat>, i: nat)
    requires StrictlyIncreasing(s) && i < |s|
    ensures Elements(s[..0]) == {} && Elements(s[..|s|]) == Elements(s)
    ensures s[i] !in Elements(s[..i]) && s[i] in Elements(s) && Elements(s[..i + 1]) == Elements(s[..i]) + {s[i]}
  {
    assert s[..|s|] == s;
    assert s[..i + 1] == s[..i] + [s[i]];
  }

  lemma AllElements(s: seq<nat>)
    ensures Elements(s[..0]) == {} && Elements(s[..|s|]) == Elements(s)
  {
    assert s[..|s|] == s;
  }

  lemma CommonNeighbour(adj: Adjacency, a: nat, b: nat, ys: seq<nat>, i: nat)
    requires a < |adj| && b < |adj| && i < |ys| && Elements(ys) == adj[a] * adj[b]
    ensures Adj(adj, a, ys[i]) && Adj(adj, b, ys[i])
  {
    assert ys[i] in Elements(ys);
  }

  lemma ThroughTwo(adj: Adjacency, a: nat, b: nat)
    requires Loopless(adj) && a < |adj| && b < |adj|
    ensures With(adj, [a, b]) == Via(adj, [a, b], adj[a] * adj[b])
  {
    forall d: nat ensures d in adj[a] * adj[b] <==> d < |adj| && forall i :: 0 <= i < 2 ==> Adj(adj, [a, b][i], d) {
      if forall i :: 0 <= i < 2 ==> Adj(adj, [a, b][i], d) {
        assert Adj(adj, [a, b][0], d) && Adj(adj, [a, b][1], d);
      }
    }
    ViaAll(adj, [a, b], adj[a] * adj[b]);
  }

  /** The innermost loop: all chains through v0 and v1. */
  method CountThroughTwo(g: Csr, v0: nat, v1: nat, y0y1: seq<nat>) returns (count: nat)
    requires g.Simple() && Loopless(g.Adjacency()) && Adj(g.Adjacency(), v0, v1)
    requires v0 < |g.Adjacency()| && v1 < |g.Adjacency()|
    requires StrictlyIncreasing(y0y1) && Elements(y0y1) == g.Adjacency()[v0] * g.Adjacency()[v1]
    ensures count == |With(g.Adjacency(), [v0, v1])|
  {
    hide *;
    ghost var adj := g.Adjacency();
    count := 0;
    ViaNone(adj, [v0, v1]);
    AllElements(y0y1);
    for i := 0 to |y0y1|
      invariant count == |Via(adj, [v0, v1], Elements(y0y1[..i]))|
    {
      var v2 := y0y1[i];
      NextElement(y0y1, i);
      CommonNeighbour(adj, v0, v1, y0y1, i);
      TriangleChain(adj, v0, v1, v2);
      RowFacts(g, v2);
      var n := CountCommon(y0y1, g.N(v2));
      WithThree(adj, v0, v1, v2);
      ViaStep(adj, [v0, v1], Elements(y0y1[..i]), v2);
      assert [v0, v1] + [v2] == [v0, v1, v2];
      count := count + n;
    }
    ThroughTwo(adj, v0, v1);
    assert |Via(adj, [v0, v1], Elements(y0y1))| == count;
  }

  lemma ThroughOne(adj: Adjacency, a: nat)
    requires Loopless(adj) && a < |adj|
    ensures With(adj, [a]) == Via(adj, [a], adj[a])
  {
    forall d: nat ensures d in adj[a] <==> d < |adj| && forall i :: 0 <= i < 1 ==> Adj(adj, [a][i], d) {
      if forall i :: 0 <= i < 1 ==> Adj(adj, [a][i], d) {
        assert Adj(adj, [a][0], d);
      }
    }
    ViaAll(adj, [a], adj[a]);
  }

  lemma Everything(adj: Adjacency)
    ensures ChainsOf(adj, 4) == Via(adj, [], Below(|adj|))
  {
    ViaAll(adj, [], Below(|adj|));
    assert ChainsOf(adj, 4) == With(adj, []);
  }

  lemma NeighbourInRange(adj: Adjacency, a: nat, b: nat)
    requires Loopless(adj) && a < |adj| && b in adj[a]
    ensures Adj(adj, a, b) && b < |adj|
  {
  }

  /** The middle loop: all chains through v0. */
  method CountThroughOne(g: Csr, v0: nat) returns (count: nat)
    requires g.Simple() && Loopless(g.Adjacency()) && v0 < |g.Adjacency()|
    ensures count == |With(g.Adjacency(), [v0])|
  {
    hide *;
    ghost var adj := g.Adjacency();
    RowFacts(g, v0);
    var y0 := g.N(v0);
    count := 0;
    ViaNone(adj, [v0]);
    AllElements(y0);
    for i := 0 to |y0|
      invariant count == |Via(adj, [v0], Elements(y0[..i]))|
    {
      var v1 := y0[i];
      NextElement(y0, i);
      NeighbourInRange(adj, v0, v1);
      RowFacts(g, v1);
      var y0y1 := MergeSets(y0, g.N(v1));
      IntersectionElements(y0, g.N(v1), y0y1);
      var n := CountThroughTwo(g, v0, v1, y0y1);
      ViaStep(adj, [v0], Elements(y0[..i]), v1);
      assert [v0] + [v1] == [v0, v1];
      count := count + n;
    }
    ThroughOne(adj, v0);
  }

  lemma BelowStep(n: nat)
    ensures Below(0) == {} && n !in Below(n) && Below(n + 1) == Below(n) + {n}
  {
  }

  lemma VerticesCount(g: Csr)
    requires g.Simple()
    ensures |g.vertices| > 0 && g.V() == |g.Adjacency()|
  {
  }

  /** The whole nest: every chain of four vertices. */
  method CountFour(g: Csr) returns (counter: nat)
    requires g.Simple() && Loopless(g.Adjacency())
    ensures counter == |ChainsOf(g.Adjacency(), 4)|
  {
    hide *;
    ghost var adj := g.Adjacency();
    counter := 0;
    VerticesCount(g);
    ViaNone(adj, []);
    BelowStep(0);
    for v0 := 0 to g.V()
      invariant counter == |Via(adj, [], Below(v0))|
    {
      var localCounter := CountThroughOne(g, v0);
      BelowStep(v0);
      ViaStep(adj, [], Below(v0), v0);
      assert [] + [v0] == [v0];
      counter := counter + localCounter;
    }
    Everything(adj);
  }

  lemma OrientedLoopless(adj: Adjacency)
    requires Undirected(adj)
    ensures Loopless(Oriented(adj)) && Loopless(adj)
  {
  }

  lemma FactorialOfFour()
    ensures Factorial(4) == 24
  {
  }

  /** 4-cliques: on the undirected graph each is met 24 times and the final division is exact;
      on the orientation of a graph each of its cliques is met once. */
  method FourCliques(g: Csr, dag: bool, ghost original: Adjacency) returns (counter: nat)
    requires g.Simple() && Undirected(original)
    requires g.Adjacency() == if dag then Oriented(original) else original
    ensures counter == |CliquesOf(original, 4)|
  {
    hide *;
    OrientedLoopless(original);
    counter := CountFour(g);
    if dag {
      OrientedChains(original, 4);
    } else {
      UndirectedChains(original, 4);
      FactorialOfFour();
      counter := counter / (4 * 3 * 2 * 1);
    }
  }
}
