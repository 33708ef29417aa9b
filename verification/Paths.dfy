/** Simple paths, and growing them one vertex at either end. */
module Paths {
  import opened Counting
  import opened CsrGraph

  ghost predicate IsPath(adj: Adjacency, p: seq<nat>) {
    && NoDuplicates(p)
    && forall i :: 0 <= i < |p| - 1 ==> Adj(adj, p[i], p[i + 1])
  }

  /** The simple paths on m vertices, as sequences: each undirected path appears in both directions. */
  ghost function PathsOf(adj: Adjacency, m: nat): set<seq<nat>> {
    set p | p in Seqs(Below(|adj|), m) && IsPath(adj, p)
  }

  function First(p: seq<nat>): nat {
    if p == [] then 0 else p[0]
  }

  /** One direction of each: the one starting at its smaller end. */
  ghost function UndirectedPaths(adj: Adjacency, m: nat): set<seq<nat>> {
    set p | p in PathsOf(adj, m) && Last(p) > First(p)
  }

  lemma PathsMember(adj: Adjacency, m: nat, p: seq<nat>)
    ensures p in PathsOf(adj, m) <==> |p| == m && (forall i :: 0 <= i < m ==> p[i] < |adj|) && IsPath(adj, p)
  {
    SeqsMembers(Below(|adj|), m);
    if |p| == m && forall i :: 0 <= i < m ==> p[i] < |adj| {
      assert forall i :: 0 <= i < m ==> p[i] in Below(|adj|);
    }
    if p in Seqs(Below(|adj|), m) {
      assert forall i :: 0 <= i < m ==> p[i] in Below(|adj|);
    }
  }

  // ---------- Both directions ----------

  function Reversed(p: seq<nat>): seq<nat> {
    seq(|p|, i requires 0 <= i < |p| => p[|p| - 1 - i])
  }

  lemma ReversedTwice(p: seq<nat>)
    ensures Reversed(Reversed(p)) == p
  {
  }

  lemma ReversedPath(adj: Adjacency, m: nat, p: seq<nat>)
    requires Symmetric(adj) && p in PathsOf(adj, m)
    ensures Reversed(p) in PathsOf(adj, m)
  {
    PathsMember(adj, m, p);
    PathsMember(adj, m, Reversed(p));
    var r := Reversed(p);
    forall i | 0 <= i < |r| - 1 ensures Adj(adj, r[i], r[i + 1]) {
      var j := |p| - 2 - i;
      assert Adj(adj, p[j], p[j + 1]);
    }
  }

  lemma ReversedCrosses(adj: Adjacency, m: nat, p: seq<nat>)
    requires Symmetric(adj) && m >= 2 && p in PathsOf(adj, m)
    ensures Reversed(p) in PathsOf(adj, m)
    ensures Reversed(p) in UndirectedPaths(adj, m) <==> p !in UndirectedPaths(adj, m)
  {
    PathsMember(adj, m, p);
    ReversedPath(adj, m, p);
    assert p[0] != p[m - 1];
  }

  lemma UndirectedAreSome(adj: Adjacency, m: nat)
    ensures UndirectedPaths(adj, m) <= PathsOf(adj, m)
  {
  }

  /** Every undirected path of two or more vertices is two sequences. */
  lemma PathsAreTwice(adj: Adjacency, m: nat)
    requires Symmetric(adj) && m >= 2
    ensures |PathsOf(adj, m)| == 2 * |UndirectedPaths(adj, m)|
  {
    hide *;
    var all, up := PathsOf(adj, m), UndirectedPaths(adj, m);
    UndirectedAreSome(adj, m);
    forall p | p in up ensures Reversed(p) in all - up {
      ReversedCrosses(adj, m, p);
    }
    forall p, q | p in up && q in up && Reversed(p) == Reversed(q) ensures p == q {
      ReversedTwice(p);
      ReversedTwice(q);
    }
    forall q | q in all - up ensures exists p :: p in up && Reversed(p) == q {
      ReversedCrosses(adj, m, q);
      ReversedTwice(q);
    }
    BijectionCard(up, all - up, Reversed);
    assert all == up + (all - up);
  }

  // ---------- Growing ----------

  ghost predicate Grows(q: seq<nat>, p: seq<nat>) {
    |p| == |q| + 1 && (p[1..] == q || p[..|q|] == q)
  }

  /** The paths one vertex longer that have q at one end. */
  ghost function Grown(adj: Adjacency, q: seq<nat>): set<seq<nat>> {
    set p | p in PathsOf(adj, |q| + 1) && Grows(q, p)
  }

  /** The sum of f over all ways to grow q s times. */
  ghost function Ways(adj: Adjacency, q: seq<nat>, s: nat, f: seq<nat> -> int): int
    decreases s
  {
    if s == 0 then f(q) else Sum(Grown(adj, q), p => Ways(adj, p, s - 1, f))
  }

  ghost function WaysFor(adj: Adjacency, s: nat, f: seq<nat> -> int): seq<nat> -> int {
    q => Ways(adj, q, s, f)
  }

  /** Only what f says of the paths grown matters. */
  lemma {:induction false} WaysAgree(adj: Adjacency, q: seq<nat>, s: nat, f: seq<nat> -> int, f': seq<nat> -> int)
    requires forall p: seq<nat> :: |p| == |q| + s ==> f(p) == f'(p)
    ensures Ways(adj, q, s, f) == Ways(adj, q, s, f')
    decreases s
  {
    if s > 0 {
      forall p | p in Grown(adj, q) ensures Ways(adj, p, s - 1, f) == Ways(adj, p, s - 1, f') {
        PathsMember(adj, |q| + 1, p);
        WaysAgree(adj, p, s - 1, f, f');
      }
      hide IsPath;
      SumCongruence(Grown(adj, q), p => Ways(adj, p, s - 1, f), p => Ways(adj, p, s - 1, f'));
    }
  }

  lemma WaysAre(adj: Adjacency, q: seq<nat>, s: nat, f: seq<nat> -> int)
    ensures Sum(Grown(adj, q), WaysFor(adj, s, f)) == Ways(adj, q, s + 1, f) == WaysFor(adj, s + 1, f)(q)
    ensures WaysFor(adj, 0, f)(q) == f(q)
  {
    SumCongruence(Grown(adj, q), p => Ways(adj, p, s, f), WaysFor(adj, s, f));
  }

  /** Cutting a path at either end leaves a path. */
  lemma Cut(adj: Adjacency, m: nat, p: seq<nat>)
    requires m >= 1 && p in PathsOf(adj, m + 1)
    ensures |p| == m + 1 && p[1..] in PathsOf(adj, m) && p[..m] in PathsOf(adj, m) && p[1..] != p[..m]
  {
    PathsMember(adj, m + 1, p);
    PathsMember(adj, m, p[1..]);
    PathsMember(adj, m, p[..m]);
    assert p[1..][0] == p[1] && p[..m][0] == p[0];
    forall i | 0 <= i < m - 1 ensures Adj(adj, p[1..][i], p[1..][i + 1]) && Adj(adj, p[..m][i], p[..m][i + 1]) {
      assert Adj(adj, p[i], p[i + 1]) && Adj(adj, p[i + 1], p[i + 2]);
    }
  }

  /** The weight that reaches p from the two paths it can be grown from. */
  ghost function Passed(g: seq<nat> -> int): seq<nat> -> int {
    p => if p == [] then 2 * g(p) else g(p[1..]) + g(p[..|p| - 1])
  }

  ghost function PassedOn(g: seq<nat> -> int, s: nat): seq<nat> -> int
    decreases s
  {
    if s == 0 then g else PassedOn(Passed(g), s - 1)
  }

  ghost function Product(g: seq<nat> -> int, f: seq<nat> -> int): seq<nat> -> int {
    p => g(p) * f(p)
  }

  /** Weight g(q) of q times what p is worth, for each p grown from q. */
  ghost function Table(g: seq<nat> -> int, f: seq<nat> -> int): (seq<nat>, seq<nat>) -> int {
    (q, p) => if Grows(q, p) then g(q) * f(p) else 0
  }

  lemma GrownIs(adj: Adjacency, q: seq<nat>)
    ensures forall p :: p in Grown(adj, q) <==> p in PathsOf(adj, |q| + 1) && Grows(q, p)
  {
  }

  lemma TableRow(adj: Adjacency, m: nat, q: seq<nat>, g: seq<nat> -> int, f: seq<nat> -> int)
    requires q in PathsOf(adj, m)
    ensures Sum(PathsOf(adj, m + 1), RowOf(Table(g, f), q)) == g(q) * Sum(Grown(adj, q), f)
  {
    hide Sum, Grows, IsPath, Grown;
    PathsMember(adj, m, q);
    GrownIs(adj, q);
    SumOverPart(PathsOf(adj, m + 1), Grown(adj, q), RowOf(Table(g, f), q));
    SumScale(Grown(adj, q), f, g(q), RowOf(Table(g, f), q));
  }

  lemma TableColumn(adj: Adjacency, m: nat, p: seq<nat>, g: seq<nat> -> int, f: seq<nat> -> int)
    requires m >= 1 && p in PathsOf(adj, m + 1)
    ensures Sum(PathsOf(adj, m), ColumnOf(Table(g, f), p)) == Product(Passed(g), f)(p)
  {
    hide Sum, IsPath;
    Cut(adj, m, p);
    var back, front := p[1..], p[..m];
    forall q | q in PathsOf(adj, m) && q !in {back, front} ensures !Grows(q, p) {
      PathsMember(adj, m, q);
    }
    SumOverPart(PathsOf(adj, m), {back, front}, ColumnOf(Table(g, f), p));
    SumOfTwo(back, front, ColumnOf(Table(g, f), p));
    assert (g(back) + g(front)) * f(p) == g(back) * f(p) + g(front) * f(p);
  }

  /** Growing once hands the weights of the m-vertex paths on to those of m + 1 vertices. */
  lemma GrowOnce(adj: Adjacency, m: nat, s: nat, g: seq<nat> -> int, f: seq<nat> -> int)
    requires m >= 1
    ensures Sum(PathsOf(adj, m), Product(g, WaysFor(adj, s + 1, f)))
            == Sum(PathsOf(adj, m + 1), Product(Passed(g), WaysFor(adj, s, f)))
  {
    hide Sum, PathsOf, Passed, WaysFor;
    var w, rest := WaysFor(adj, s + 1, f), WaysFor(adj, s, f);
    forall q | q in PathsOf(adj, m)
      ensures Product(g, w)(q) == Sum(PathsOf(adj, m + 1), RowOf(Table(g, rest), q))
    {
      TableRow(adj, m, q, g, rest);
      WaysAre(adj, q, s, f);
    }
    forall p | p in PathsOf(adj, m + 1)
      ensures Product(Passed(g), rest)(p) == Sum(PathsOf(adj, m), ColumnOf(Table(g, rest), p))
    {
      TableColumn(adj, m, p, g, rest);
    }
    SumSwap(PathsOf(adj, m), PathsOf(adj, m + 1), Table(g, rest), Product(g, w), Product(Passed(g), rest));
  }

  lemma NoGrowth(adj: Adjacency, g: seq<nat> -> int, f: seq<nat> -> int, q: seq<nat>)
    ensures Product(g, WaysFor(adj, 0, f))(q) == Product(PassedOn(g, 0), f)(q)
  {
  }

  lemma PassedNext(g: seq<nat> -> int, s: nat)
    requires s > 0
    ensures PassedOn(Passed(g), s - 1) == PassedOn(g, s)
  {
  }

  /** Growing the m-vertex paths, each with a weight, s times: the sum over the paths of m + s vertices, each with the
      weight that was passed on to it. */
  lemma {:induction false} GrowWeighted(adj: Adjacency, m: nat, s: nat, g: seq<nat> -> int, f: seq<nat> -> int)
    requires m >= 1
    ensures Sum(PathsOf(adj, m), Product(g, WaysFor(adj, s, f)))
            == Sum(PathsOf(adj, m + s), Product(PassedOn(g, s), f))
    decreases s
  {
    hide *;
    if s == 0 {
      forall q ensures Product(g, WaysFor(adj, 0, f))(q) == Product(PassedOn(g, 0), f)(q) {
        NoGrowth(adj, g, f, q);
      }
      SumCongruence(PathsOf(adj, m), Product(g, WaysFor(adj, 0, f)), Product(PassedOn(g, 0), f));
    } else {
      GrowOnce(adj, m, s - 1, g, f);
      GrowWeighted(adj, m + 1, s - 1, Passed(g), f);
      assert m + 1 + (s - 1) == m + s;
      PassedNext(g, s);
    }
  }

  ghost function One(): seq<nat> -> int {
    p => 1
  }

  lemma PassedConstant(g: seq<nat> -> int, k: int)
    requires forall q :: g(q) == k
    ensures forall p :: Passed(g)(p) == 2 * k
  {
  }

  lemma PassedStart(g: seq<nat> -> int)
    ensures PassedOn(g, 0) == g
  {
  }

  lemma PowStart(k: int)
    ensures Pow(2, 0) * k == k
  {
  }

  lemma DoublePow(s: nat, x: int)
    requires s > 0
    ensures Pow(2, s - 1) * (2 * x) == Pow(2, s) * x
  {
  }

  /** An equal weight doubles with every vertex. */
  lemma {:induction false} PassedDoubles(g: seq<nat> -> int, s: nat, k: int)
    requires forall q :: g(q) == k
    ensures forall p :: PassedOn(g, s)(p) == Pow(2, s) * k
    decreases s
  {
    hide *;
    PassedStart(g);
    PowStart(k);
    if s > 0 {
      PassedConstant(g, k);
      PassedDoubles(Passed(g), s - 1, 2 * k);
      PassedNext(g, s);
      DoublePow(s, k);
    }
  }

  /** Growing all m-vertex paths s times gives every path of m + s vertices 2^s times. */
  lemma GrowAll(adj: Adjacency, m: nat, s: nat, f: seq<nat> -> int)
    requires m >= 1
    ensures Sum(PathsOf(adj, m), WaysFor(adj, s, f)) == Pow(2, s) * Sum(PathsOf(adj, m + s), f)
  {
    hide Sum, PathsOf, PassedOn, WaysFor, Pow;
    SumCongruence(PathsOf(adj, m), WaysFor(adj, s, f), Product(One(), WaysFor(adj, s, f)));
    GrowWeighted(adj, m, s, One(), f);
    PassedDoubles(One(), s, 1);
    SumScale(PathsOf(adj, m + s), f, Pow(2, s), Product(PassedOn(One(), s), f));
  }
}
