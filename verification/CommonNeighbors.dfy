/** Common neighbours, and building the chains of cliques one common neighbour at a time. */
module CommonNeighbors {
  import opened Counting
  import opened CsrGraph
  import opened Cliques

  /** The vertices adjacent to all of s. */
  ghost function Commons(adj: Adjacency, s: set<nat>): set<nat> {
    set w | w in Below(|adj|) && forall x :: x in s ==> Adj(adj, x, w)
  }

  ghost function OnAppended(q: seq<nat>, f: seq<nat> -> int): nat -> int {
    (w: nat) => f(q + [w])
  }

  ghost function CommonsSum(adj: Adjacency, f: seq<nat> -> int): seq<nat> -> int {
    q => Sum(Commons(adj, Elements(q)), OnAppended(q, f))
  }

  ghost function FrontIs(): (seq<nat>, seq<nat>) -> bool {
    (q, p) => |p| == |q| + 1 && p[..|q|] == q
  }

  /** A chain of one more vertex is a chain and a common neighbour of it. */
  lemma CommonAppends(adj: Adjacency, m: nat, q: seq<nat>, w: nat)
    requires q in ChainsOf(adj, m)
    ensures |q| == m && (q + [w] in ChainsOf(adj, m + 1) <==> w in Commons(adj, Elements(q)))
  {
    ChainsMember(adj, m, q);
    ChainsMember(adj, m + 1, q + [w]);
    ChainAppend(adj, q, w);
    if q + [w] in ChainsOf(adj, m + 1) {
      assert (q + [w])[m] == w;
      forall x | x in Elements(q) ensures Adj(adj, x, w) {
        var i :| 0 <= i < m && q[i] == x;
      }
    }
    if w in Commons(adj, Elements(q)) {
      forall i | 0 <= i < m ensures Adj(adj, q[i], w) {
        assert q[i] in Elements(q);
      }
    }
  }

  lemma AppendedChains(adj: Adjacency, m: nat, q: seq<nat>, f: seq<nat> -> int)
    requires q in ChainsOf(adj, m)
    ensures CommonsSum(adj, f)(q) == Sum(Related(q, ChainsOf(adj, m + 1), FrontIs()), f)
  {
    hide ChainsOf, Commons, Sum, Elements;
    var s, t, h := Commons(adj, Elements(q)), Related(q, ChainsOf(adj, m + 1), FrontIs()), (w: nat) => q + [w];
    forall w | w in s ensures h(w) in t {
      CommonAppends(adj, m, q, w);
      assert (q + [w])[..|q|] == q;
    }
    forall w, w' | w in s && w' in s && h(w) == h(w') ensures w == w' {
      assert h(w)[|q|] == w && h(w')[|q|] == w';
    }
    forall p | p in t ensures exists w :: w in s && h(w) == p {
      ChainFront(adj, m, p);
      CommonAppends(adj, m, q, 0);
      CommonAppends(adj, m, q, p[m]);
      assert h(p[m]) == p;
    }
    SumBijection(s, t, h, OnAppended(q, f), f);
  }

  lemma OneFront(adj: Adjacency, m: nat, p: seq<nat>)
    requires p in ChainsOf(adj, m + 1)
    ensures |CoRelated(p, ChainsOf(adj, m), FrontIs())| == 1
  {
    hide ChainsOf;
    ChainFront(adj, m, p);
    forall q ensures q in CoRelated(p, ChainsOf(adj, m), FrontIs()) <==> q == p[..m] {
      if q in ChainsOf(adj, m) {
        CommonAppends(adj, m, q, 0);
      }
    }
    assert CoRelated(p, ChainsOf(adj, m), FrontIs()) == {p[..m]};
  }

  lemma TimesOne(k: int)
    ensures Times(1, k) == k
  {
  }

  /** Summing over the chains of m + 1 vertices by their front. */
  lemma ChainsByFront(adj: Adjacency, m: nat, f: seq<nat> -> int)
    ensures Sum(ChainsOf(adj, m), CommonsSum(adj, f)) == Sum(ChainsOf(adj, m + 1), f)
  {
    hide *;
    forall q | q in ChainsOf(adj, m)
      ensures CommonsSum(adj, f)(q) == Sum(Related(q, ChainsOf(adj, m + 1), FrontIs()), f)
    {
      AppendedChains(adj, m, q, f);
    }
    forall p | p in ChainsOf(adj, m + 1) ensures f(p) == Times(|CoRelated(p, ChainsOf(adj, m), FrontIs())|, f(p)) {
      OneFront(adj, m, p);
      TimesOne(f(p));
    }
    SumExchange(ChainsOf(adj, m), ChainsOf(adj, m + 1), FrontIs(), f, CommonsSum(adj, f), f);
  }
}
