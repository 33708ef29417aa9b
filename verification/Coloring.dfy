/** Colour sparsification: what one colouring keeps, and what all colourings keep together
    (sansa/src/common/graph.cc:340-459). */
module Coloring {
  import opened Counting
  import opened CsrGraph
  import opened Cliques

  /** The edges between vertices of one colour. */
  ghost function Sparsified(adj: Adjacency, colors: seq<nat>): Adjacency
    requires |colors| == |adj|
  {
    seq(|adj|, u requires 0 <= u < |adj| => set v | v in adj[u] && v < |adj| && colors[v] == colors[u])
  }

  ghost predicate Monochromatic(colors: seq<nat>, s: set<nat>) {
    forall u, v :: u in s && v in s ==> u < |colors| && v < |colors| && colors[u] == colors[v]
  }

  lemma SparsifiedAdj(adj: Adjacency, colors: seq<nat>, u: nat, v: nat)
    requires Loopless(adj) && |colors| == |adj|
    ensures Adj(Sparsified(adj, colors), u, v) <==>
              Adj(adj, u, v) && u < |colors| && v < |colors| && colors[u] == colors[v]
  {
  }

  lemma CliqueKept(adj: Adjacency, colors: seq<nat>, s: set<nat>)
    requires Loopless(adj) && |colors| == |adj| && s <= Below(|adj|)
    ensures IsClique(Sparsified(adj, colors), s) <==> IsClique(adj, s) && Monochromatic(colors, s)
  {
    forall u, v | u in s && v in s && u != v
      ensures Adj(Sparsified(adj, colors), u, v) <==> Adj(adj, u, v) && colors[u] == colors[v]
    {
      assert u in Below(|adj|) && v in Below(|adj|);
      SparsifiedAdj(adj, colors, u, v);
    }
    forall u | u in s ensures u < |colors| {
      assert u in Below(|adj|);
    }
  }

  /** For one colouring the kept cliques are exactly the monochromatic ones. */
  lemma KeptCliques(adj: Adjacency, colors: seq<nat>, k: nat)
    requires Loopless(adj) && |colors| == |adj|
    ensures CliquesOf(Sparsified(adj, colors), k)
            == set s | s in CliquesOf(adj, k) && Monochromatic(colors, s)
  {
    forall s: set<nat> | s <= Below(|adj|)
      ensures IsClique(Sparsified(adj, colors), s) <==> IsClique(adj, s) && Monochromatic(colors, s)
    {
      CliqueKept(adj, colors, s);
    }
  }

  // ---------- Counting colourings ----------

  /** All ways to give n vertices one of c colours each. */
  ghost function Colourings(n: nat, c: nat): set<seq<nat>> {
    Seqs(Below(c), n)
  }

  ghost predicate Paints(colors: seq<nat>, s: set<nat>, a: nat) {
    forall v :: v in s && v < |colors| ==> colors[v] == a
  }

  ghost function Painting(n: nat, c: nat, s: set<nat>, a: nat): set<seq<nat>> {
    set col | col in Colourings(n, c) && Paints(col, s, a)
  }

  lemma PaintsAppend(e: seq<nat>, d: nat, s: set<nat>, a: nat)
    ensures Paints(e + [d], s, a) <==> Paints(e, s, a) && (|e| in s ==> d == a)
  {
    var f := e + [d];
    if Paints(f, s, a) {
      forall v | v in s && v < |e| ensures e[v] == a {
        assert f[v] == a;
      }
      if |e| in s {
        assert f[|e|] == a;
      }
    }
  }

  /** The colours the next vertex may get. */
  ghost function NextColours(c: nat, s: set<nat>, a: nat, v: nat): set<nat> {
    if v in s then {a} else Below(c)
  }

  ghost function Longer(es: set<seq<nat>>, ds: set<nat>): set<seq<nat>> {
    set e: seq<nat>, d: nat | e in es && d in ds :: e + [d]
  }

  lemma LongerFibre(es: set<seq<nat>>, ds: set<nat>, d: nat)
    requires d in ds
    ensures |Fibre(Longer(es, ds), Last, d)| == |es|
  {
    var h := (e: seq<nat>) => e + [d];
    forall e, e' | e in es && e' in es && h(e) == h(e') ensures e == e' {
      assert h(e)[..|e|] == e && h(e')[..|e'|] == e';
    }
    forall x: seq<nat> | x in Fibre(Longer(es, ds), Last, d) ensures exists e: seq<nat> :: e in es && h(e) == x {
      var e: seq<nat>, d': nat :| e in es && d' in ds && e + [d'] == x;
      assert h(e) == x;
    }
    BijectionCard(es, Fibre(Longer(es, ds), Last, d), h);
  }

  lemma LongerCard(es: set<seq<nat>>, ds: set<nat>)
    ensures |Longer(es, ds)| == |es| * |ds|
  {
    forall x | x in Longer(es, ds) ensures Last(x) in ds {
      var e: seq<nat>, d: nat :| e in es && d in ds && e + [d] == x;
    }
    forall d | d in ds ensures |Fibre(Longer(es, ds), Last, d)| == |es| {
      LongerFibre(es, ds, d);
    }
    FibreCard(Longer(es, ds), ds, Last, |es|);
  }

  lemma PaintingSplits(n: nat, c: nat, s: set<nat>, a: nat)
    requires a < c
    ensures Painting(n + 1, c, s, a) == Longer(Painting(n, c, s, a), NextColours(c, s, a, n))
  {
    forall x ensures x in Painting(n + 1, c, s, a) <==> x in Longer(Painting(n, c, s, a), NextColours(c, s, a, n)) {
      SeqsMembers(Below(c), n);
      SeqsMembers(Below(c), n + 1);
      if x in Painting(n + 1, c, s, a) {
        var e, d := x[..n], x[n];
        assert x == e + [d];
        PaintsAppend(e, d, s, a);
        assert e in Painting(n, c, s, a) && d in NextColours(c, s, a, n);
      }
      if x in Longer(Painting(n, c, s, a), NextColours(c, s, a, n)) {
        var e, d :| e in Painting(n, c, s, a) && d in NextColours(c, s, a, n) && e + [d] == x;
        PaintsAppend(e, d, s, a);
        assert a in Below(c);
      }
    }
  }

  lemma NothingPainted(c: nat, s: set<nat>, a: nat)
    ensures |Painting(0, c, s, a)| == 1 == Pow(c, 0)
  {
    assert Painting(0, c, s, a) == {[]};
  }

  lemma NextColoursCard(c: nat, s: set<nat>, a: nat, v: nat)
    ensures |NextColours(c, s, a, v)| == if v in s then 1 else c
  {
    BelowCard(c);
  }

  lemma BelowFront(n: nat, s: set<nat>)
    requires n > 0 && s <= Below(n)
    ensures s - {n - 1} <= Below(n - 1)
  {
  }

  lemma PowStep(c: nat, e: nat)
    requires e > 0
    ensures Pow(c, e) == Pow(c, e - 1) * c
  {
  }

  lemma SamePainting(n: nat, c: nat, s: set<nat>, s': set<nat>, a: nat)
    requires s' == s - {n}
    ensures Painting(n, c, s, a) == Painting(n, c, s', a)
  {
    SeqsMembers(Below(c), n);
  }

  /** Painting m of n vertices with one given colour leaves c^(n-m) colourings. */
  lemma {:induction false} PaintingCard(n: nat, c: nat, s: set<nat>, a: nat)
    requires a < c && s <= Below(n)
    ensures |s| <= n && |Painting(n, c, s, a)| == Pow(c, n - |s|)
  {
    hide *;
    BelowCard(n);
    SubsetCard(s, Below(n));
    if n == 0 {
      NothingPainted(c, s, a);
    } else {
      var s' := s - {n - 1};
      BelowFront(n, s);
      PaintingCard(n - 1, c, s', a);
      PaintingSplits(n - 1, c, s, a);
      SamePainting(n - 1, c, s, s', a);
      LongerCard(Painting(n - 1, c, s, a), NextColours(c, s, a, n - 1));
      NextColoursCard(c, s, a, n - 1);
      if n - 1 in s {
        assert s == s' + {n - 1};
      } else {
        assert s == s';
        PowStep(c, n - |s|);
      }
    }
  }

  ghost function MonoColourings(n: nat, c: nat, s: set<nat>): set<seq<nat>> {
    set col | col in Colourings(n, c) && Monochromatic(col, s)
  }

  lemma MonoFibre(n: nat, c: nat, s: set<nat>, v: nat, a: nat)
    requires v in s && s <= Below(n) && a in Below(c)
    ensures forall col :: col in Painting(n, c, s, a) <==>
              col in MonoColourings(n, c, s) && v < |col| && col[v] == a
  {
    SeqsMembers(Below(c), n);
    forall col | col in Painting(n, c, s, a) ensures col in MonoColourings(n, c, s) && v < |col| && col[v] == a {
      forall u | u in s ensures u < |col| && col[u] == a {
        assert u in Below(n);
      }
    }
  }

  /** Of the c^n colourings, c^(n-m+1) leave a given set of m >= 1 vertices in one colour. */
  lemma MonoCard(n: nat, c: nat, s: set<nat>)
    requires s != {} && s <= Below(n)
    ensures |s| <= n && |MonoColourings(n, c, s)| == Pow(c, n - |s| + 1)
  {
    BelowCard(n);
    SubsetCard(s, Below(n));
    var v :| v in s;
    assert v in Below(n);
    var h := (col: seq<nat>) => if v < |col| then col[v] else 0;
    forall col | col in MonoColourings(n, c, s) ensures h(col) in Below(c) {
      SeqsMembers(Below(c), n);
    }
    forall a | a in Below(c) ensures |Fibre(MonoColourings(n, c, s), h, a)| == Pow(c, n - |s|) {
      MonoFibre(n, c, s, v, a);
      assert Fibre(MonoColourings(n, c, s), h, a) == Painting(n, c, s, a);
      PaintingCard(n, c, s, a);
    }
    FibreCard(MonoColourings(n, c, s), Below(c), h, Pow(c, n - |s|));
    BelowCard(c);
    PowStep(c, n - |s| + 1);
  }

  // ---------- Summing over all colourings ----------

  ghost function KeptCount(adj: Adjacency, k: nat): seq<nat> -> int {
    col => if |col| == |adj| then |CliquesOf(Sparsified(adj, col), k)| else 0
  }

  ghost function MonoRelation(): (seq<nat>, set<nat>) -> bool {
    (col, s) => Monochromatic(col, s)
  }

  ghost function ConstantOn(x: int): set<nat> -> int {
    s => x
  }

  lemma ConstantAt(x: int, s: set<nat>)
    ensures ConstantOn(x)(s) == x
  {
  }

  lemma KeptIsRelated(adj: Adjacency, c: nat, k: nat, col: seq<nat>)
    requires Loopless(adj) && col in Colourings(|adj|, c)
    ensures KeptCount(adj, k)(col) == |Related(col, CliquesOf(adj, k), MonoRelation())|
  {
    SeqsMembers(Below(c), |adj|);
    KeptCliques(adj, col, k);
    assert Related(col, CliquesOf(adj, k), MonoRelation())
        == set s | s in CliquesOf(adj, k) && Monochromatic(col, s);
  }

  lemma MonoIsCoRelated(adj: Adjacency, c: nat, k: nat, s: set<nat>)
    requires 1 <= k <= |adj| && s in CliquesOf(adj, k)
    ensures ConstantOn(Pow(c, |adj| - k + 1))(s) == |CoRelated(s, Colourings(|adj|, c), MonoRelation())|
  {
    MonoCard(|adj|, c, s);
    assert CoRelated(s, Colourings(|adj|, c), MonoRelation()) == MonoColourings(|adj|, c, s);
  }

  /** Over all colourings together, sparsification keeps c^(n-k+1) times the k-cliques. */
  lemma AllColouringsKeep(adj: Adjacency, c: nat, k: nat)
    requires Loopless(adj) && 1 <= k <= |adj|
    ensures Sum(Colourings(|adj|, c), KeptCount(adj, k)) == Pow(c, |adj| - k + 1) * |CliquesOf(adj, k)|
  {
    hide *;
    var n := |adj|;
    var cols, cliques, p := Colourings(n, c), CliquesOf(adj, k), Pow(c, n - k + 1);
    forall col | col in cols ensures KeptCount(adj, k)(col) == |Related(col, cliques, MonoRelation())| {
      KeptIsRelated(adj, c, k, col);
    }
    forall s | s in cliques ensures ConstantOn(p)(s) == |CoRelated(s, cols, MonoRelation())| {
      MonoIsCoRelated(adj, c, k, s);
    }
    DoubleCount(cols, cliques, MonoRelation(), KeptCount(adj, k), ConstantOn(p));
    forall s | s in cliques ensures ConstantOn(p)(s) == p {
      ConstantAt(p, s);
    }
    SumConstant(cliques, ConstantOn(p), p);
  }
}
