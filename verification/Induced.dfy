/** Induced subgraphs with renumbered vertices, and what counting on them gives. */
module Induced {
  import opened Counting
  import opened CsrGraph
  import opened Cliques

  /** h is g restricted to ids, vertex k of h being ids[k]. */
  ghost predicate IsInduced(g: Csr, ids: seq<nat>, h: Csr)
    requires g.WellFormed()
  {
    && NoDuplicates(ids) && (forall k :: 0 <= k < |ids| ==> ids[k] < g.V())
    && h.WellFormed() && h.V() == |ids|
    && forall s :: 0 <= s < |ids| ==> StrictlyIncreasing(h.N(s)) && forall d: nat :: d in h.N(s) <==>
         d < |ids| && ids[d] in g.N(ids[s])
  }

  /** There is only one such graph: its neighbour lists are determined. */
  lemma InducedUnique(g: Csr, ids: seq<nat>, a: Csr, b: Csr, s: nat)
    requires g.WellFormed() && IsInduced(g, ids, a) && IsInduced(g, ids, b) && s < |ids|
    ensures a.N(s) == b.N(s)
  {
    SameElementsSameList(a.N(s), b.N(s));
  }

  lemma InducedAdj(g: Csr, ids: seq<nat>, h: Csr, s: nat, d: nat)
    requires g.WellFormed() && IsInduced(g, ids, h)
    ensures |h.Adjacency()| == |ids|
    ensures Adj(h.Adjacency(), s, d) <==> s < |ids| && d < |ids| && Adj(g.Adjacency(), ids[s], ids[d])
  {
    if s < |ids| {
      assert h.Adjacency()[s] == Elements(h.N(s));
      assert g.Adjacency()[ids[s]] == Elements(g.N(ids[s]));
    }
  }

  // ---------- Chains of the subgraph ----------

  /** The vertices of g that a sequence of h stands for. */
  function Named(ids: seq<nat>, e: seq<nat>): (s: seq<nat>)
    ensures |s| == |e|
  {
    seq(|e|, i requires 0 <= i < |e| => if e[i] < |ids| then ids[e[i]] else 0)
  }

  lemma NamedAt(g: Csr, ids: seq<nat>, h: Csr, e: seq<nat>, i: nat)
    requires g.WellFormed() && IsInduced(g, ids, h) && i < |e| && e[i] < |ids|
    ensures Named(ids, e)[i] == ids[e[i]] < |g.Adjacency()|
  {
  }

  lemma ChainsAgree(a: Adjacency, b: Adjacency, e: seq<nat>, p: seq<nat>)
    requires |e| == |p| && forall i, j :: 0 <= i < j < |e| ==> (Adj(a, e[i], e[j]) <==> Adj(b, p[i], p[j]))
    ensures IsChain(a, e) <==> IsChain(b, p)
  {
    hide Adj;
  }

  lemma ChainNamed(g: Csr, ids: seq<nat>, h: Csr, k: nat, e: seq<nat>)
    requires g.WellFormed() && IsInduced(g, ids, h)
    ensures e in ChainsOf(h.Adjacency(), k) <==>
              |e| == k && (forall i :: 0 <= i < k ==> e[i] < |ids|) && Named(ids, e) in ChainsOf(g.Adjacency(), k)
  {
    hide *;
    var p := Named(ids, e);
    ChainsMember(h.Adjacency(), k, e);
    ChainsMember(g.Adjacency(), k, p);
    InducedAdj(g, ids, h, 0, 0);
    if |e| == k && forall i :: 0 <= i < k ==> e[i] < |ids| {
      forall i | 0 <= i < k ensures p[i] == ids[e[i]] < |g.Adjacency()| {
        NamedAt(g, ids, h, e, i);
      }
      forall i, j | 0 <= i < j < k ensures Adj(h.Adjacency(), e[i], e[j]) <==> Adj(g.Adjacency(), p[i], p[j]) {
        InducedAdj(g, ids, h, e[i], e[j]);
      }
      ChainsAgree(h.Adjacency(), g.Adjacency(), e, p);
    }
  }

  function Root(e: seq<nat>): nat {
    if e == [] then 0 else e[0]
  }

  /** The chains whose first vertex is in [lo, hi). */
  ghost function Rooted(adj: Adjacency, k: nat, lo: nat, hi: nat): set<seq<nat>> {
    set e | e in ChainsOf(adj, k) && lo <= Root(e) < hi
  }

  /** v is in the chunk or next to it. */
  ghost predicate InChunkHull(g: Csr, begin: nat, end: nat, v: nat)
    requires g.WellFormed()
  {
    v < g.V() && (begin <= v < end || exists w :: begin <= w < end && w < g.V() && v in g.N(w))
  }

  /** sub has the vertices [begin, end) and their neighbours; locally, the former are [lb, le). */
  ghost predicate IsPart(g: Csr, begin: nat, end: nat, ids: seq<nat>, sub: Csr, lb: nat, le: nat)
    requires g.WellFormed()
  {
    && StrictlyIncreasing(ids)
    && (forall v: nat :: v in ids <==> InChunkHull(g, begin, end, v))
    && IsInduced(g, ids, sub)
    && (ids == [] || le <= |ids|) && forall k :: 0 <= k < |ids| ==> (lb <= k < le <==> begin <= ids[k] < end)
  }

  ghost function NamedBy(ids: seq<nat>): seq<nat> -> seq<nat> {
    (e: seq<nat>) => Named(ids, e)
  }

  lemma RootedNamed(g: Csr, begin: nat, end: nat, ids: seq<nat>, sub: Csr, lb: nat, le: nat, k: nat, e: seq<nat>)
    requires g.WellFormed() && IsPart(g, begin, end, ids, sub, lb, le) && k >= 1
    ensures e in Rooted(sub.Adjacency(), k, lb, le) ==>
              |e| == k && (forall i :: 0 <= i < k ==> e[i] < |ids|)
                  && Named(ids, e) in Rooted(g.Adjacency(), k, begin, end)
    ensures |e| == k && (forall i :: 0 <= i < k ==> e[i] < |ids|)
            && Named(ids, e) in Rooted(g.Adjacency(), k, begin, end) ==>
              e in Rooted(sub.Adjacency(), k, lb, le)
  {
    hide ChainsOf, IsInduced, InChunkHull, StrictlyIncreasing;
    ChainNamed(g, ids, sub, k, e);
  }

  lemma NamedInjective(ids: seq<nat>, e: seq<nat>, e': seq<nat>)
    requires NoDuplicates(ids) && Named(ids, e) == Named(ids, e')
    requires (forall i :: 0 <= i < |e| ==> e[i] < |ids|) && (forall i :: 0 <= i < |e'| ==> e'[i] < |ids|)
    ensures e == e'
  {
    assert |Named(ids, e)| == |Named(ids, e')|;
    forall i | 0 <= i < |e| ensures e[i] == e'[i] {
      assert Named(ids, e)[i] == ids[e[i]] && Named(ids, e')[i] == ids[e'[i]];
    }
  }

  /** Where each vertex of p is in ids. */
  lemma {:induction false} PositionsOf(ids: seq<nat>, p: seq<nat>) returns (e: seq<nat>)
    requires forall i :: 0 <= i < |p| ==> p[i] in ids
    ensures |e| == |p| && forall i :: 0 <= i < |p| ==> e[i] < |ids| && ids[e[i]] == p[i]
  {
    if p == [] {
      e := [];
    } else {
      var front := PositionsOf(ids, p[..|p| - 1]);
      var k :| 0 <= k < |ids| && ids[k] == p[|p| - 1];
      e := front + [k];
    }
  }

  /** Everything adjacent to a vertex of the chunk has a local name. */
  lemma RootedHasName(g: Csr, begin: nat, end: nat, ids: seq<nat>, sub: Csr, lb: nat, le: nat, k: nat, p: seq<nat>)
    returns (e: seq<nat>)
    requires g.Simple() && IsPart(g, begin, end, ids, sub, lb, le) && k >= 1
             && p in Rooted(g.Adjacency(), k, begin, end)
    ensures |e| == k && (forall i :: 0 <= i < k ==> e[i] < |ids|) && Named(ids, e) == p
  {
    hide ChainsOf, IsInduced, StrictlyIncreasing;
    ChainsMember(g.Adjacency(), k, p);
    forall i | 0 <= i < k ensures p[i] in ids {
      assert InChunkHull(g, begin, end, p[i]) by {
        if i > 0 {
          assert Adj(g.Adjacency(), p[0], p[i]);
          assert g.Adjacency()[p[0]] == Elements(g.N(p[0]));
        }
      }
    }
    e := PositionsOf(ids, p);
    assert Named(ids, e) == p;
  }

  lemma PartIds(g: Csr, begin: nat, end: nat, ids: seq<nat>, sub: Csr, lb: nat, le: nat)
    requires g.WellFormed() && IsPart(g, begin, end, ids, sub, lb, le)
    ensures NoDuplicates(ids)
  {
  }

  lemma NamedByIs(ids: seq<nat>, e: seq<nat>)
    ensures NamedBy(ids)(e) == Named(ids, e)
  {
  }

  /** Chains rooted in the local range are the chains rooted in the chunk. */
  lemma PartCounts(g: Csr, begin: nat, end: nat, ids: seq<nat>, sub: Csr, lb: nat, le: nat, k: nat)
    requires g.Simple() && k >= 1
    requires IsPart(g, begin, end, ids, sub, lb, le)
    ensures |Rooted(sub.Adjacency(), k, lb, le)| == |Rooted(g.Adjacency(), k, begin, end)|
  {
    hide *;
    SimpleIsWellFormed(g);
    var s, t, name := Rooted(sub.Adjacency(), k, lb, le), Rooted(g.Adjacency(), k, begin, end), NamedBy(ids);
    PartIds(g, begin, end, ids, sub, lb, le);
    forall e | e in s ensures name(e) in t && name(e) == Named(ids, e) && forall i :: 0 <= i < |e| ==> e[i] < |ids| {
      RootedNamed(g, begin, end, ids, sub, lb, le, k, e);
      NamedByIs(ids, e);
    }
    forall e, e' | e in s && e' in s && name(e) == name(e') ensures e == e' {
      NamedInjective(ids, e, e');
    }
    forall p | p in t ensures exists e :: e in s && name(e) == p {
      var e := RootedHasName(g, begin, end, ids, sub, lb, le, k, p);
      RootedNamed(g, begin, end, ids, sub, lb, le, k, e);
      NamedByIs(ids, e);
    }
    BijectionCard(s, t, name);
  }
}
