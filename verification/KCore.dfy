/** K-core decomposition by bucket-sorted peeling
    (sansa/src/common/graph.cc:1084-1134, sansa/src/common/pattern.cc:195-245). */
module KCore {
  import opened Counting
  import opened CsrGraph

  // ---------- What a core number is ----------

  /** Every vertex of s has at least k neighbours inside s. */
  ghost predicate MinDegree(adj: Adjacency, s: set<nat>, k: int)
  {
    forall u :: u in s ==> u < |adj| && |adj[u] * s| >= k
  }

  /** v lies in a subgraph of minimum degree k. */
  ghost predicate InCore(adj: Adjacency, k: int, v: nat)
  {
    exists s: set<nat> :: v in s && MinDegree(adj, s, k)
  }

  /** c is the largest k such that v lies in a subgraph of minimum degree k. */
  ghost predicate IsCoreNumber(adj: Adjacency, v: nat, c: int)
  {
    forall k :: InCore(adj, k, v) <==> k <= c
  }

  lemma MinDegreeWeaken(adj: Adjacency, s: set<nat>, k: int, k': int)
    requires MinDegree(adj, s, k) && k' <= k
    ensures MinDegree(adj, s, k')
  {
  }

  // ---------- The peeling state ----------

  /** The four arrays: current core values, vertices sorted by them, the inverse
      of that order, and the first position of each core value. */
  datatype Peel = Peel(core: seq<nat>, vertices: seq<nat>, position: seq<nat>, offset: seq<nat>)

  ghost predicate Permutation(st: Peel, n: nat) {
    && |st.core| == |st.vertices| == |st.position| == n
    && (forall v :: 0 <= v < n ==> st.position[v] < n && st.vertices[st.position[v]] == v)
    && (forall p :: 0 <= p < n ==> st.vertices[p] < n && st.position[st.vertices[p]] == p)
  }

  ghost predicate Sorted(st: Peel, n: nat)
    requires Permutation(st, n)
  {
    forall p, q :: 0 <= p <= q < n ==> st.core[st.vertices[p]] <= st.core[st.vertices[q]]
  }

  /** For d above the current level, offset[d] is the first position with core value at least d. */
  ghost predicate Bins(st: Peel, n: nat, md: nat, level: nat)
    requires Permutation(st, n)
  {
    && |st.offset| == md + 1
    && forall d, p :: level < d <= md && 0 <= p < n ==>
         (p < st.offset[d] <==> st.core[st.vertices[p]] < d)
  }

  ghost predicate Ordered(st: Peel, n: nat, md: nat, level: nat) {
    && Permutation(st, n)
    && Sorted(st, n)
    && Bins(st, n, md, level)
    && (forall v :: 0 <= v < n ==> st.core[v] <= md)
  }

  /** The vertices not yet taken off the front of the order. */
  ghost function Rest(st: Peel, n: nat, i: int): set<nat>
    requires Permutation(st, n)
  {
    set u | u in st.vertices && st.position[u] >= i
  }

  function Max(a: int, b: int): int {
    if a < b then b else a
  }

  /** Every remaining vertex's value is its remaining degree, but never below the level. */
  ghost predicate Peeled(adj: Adjacency, st: Peel, i: int, level: nat)
    requires Permutation(st, |adj|)
  {
    forall u :: u in Rest(st, |adj|, i) ==>
      st.core[u] == Max(level, |adj[u] * Rest(st, |adj|, i)|)
  }

  /** The vertices already taken lie in cores of their values, the others in a core of the level. */
  ghost predicate Supported(adj: Adjacency, st: Peel, i: int, level: nat)
    requires Permutation(st, |adj|)
  {
    && (forall u :: 0 <= u < |adj| && st.position[u] < i ==>
          st.core[u] <= level && InCore(adj, st.core[u], u))
    && (forall u :: u in Rest(st, |adj|, i) ==> level <= st.core[u] && InCore(adj, level, u))
  }

  /** No subgraph of minimum degree k contains a taken vertex of value below k. */
  ghost predicate Capped(adj: Adjacency, st: Peel, i: int)
    requires Permutation(st, |adj|)
  {
    forall s: set<nat>, k :: MinDegree(adj, s, k) ==>
      forall u :: u in s && st.position[u] < i ==> k <= st.core[u]
  }

  // ---------- One demotion ----------

  predicate CanDemote(st: Peel, n: nat, u: nat) {
    && |st.core| == |st.vertices| == |st.position| == n
    && u < n && st.core[u] > 0 && st.core[u] < |st.offset|
    && st.position[u] < n
    && st.offset[st.core[u]] < n
    && st.vertices[st.offset[st.core[u]]] < n
  }

  /** u trades places with the first vertex of its bin, and the bin shrinks past it. */
  function Demoted(st: Peel, n: nat, u: nat): Peel
    requires CanDemote(st, n, u)
  {
    var d := st.core[u];
    var pu, pw := st.position[u], st.offset[d];
    var w := st.vertices[pw];
    Peel(st.core[u := d - 1],
         st.vertices[pu := w][pw := u],
         st.position[w := pu][u := pw],
         st.offset[d := pw + 1])
  }

  lemma BinStart(st: Peel, n: nat, md: nat, level: nat, u: nat)
    requires Ordered(st, n, md, level)
    requires u < n && level < st.core[u]
    ensures CanDemote(st, n, u)
    ensures st.offset[st.core[u]] <= st.position[u]
    ensures st.core[st.vertices[st.offset[st.core[u]]]] == st.core[u]
    ensures forall p :: 0 <= p < st.offset[st.core[u]] ==> st.core[st.vertices[p]] < st.core[u]
  {
    var d := st.core[u];
    assert st.vertices[st.position[u]] == u;
    assert st.offset[d] <= st.position[u];
  }

  lemma DemotePermutation(st: Peel, n: nat, md: nat, level: nat, u: nat)
    requires Ordered(st, n, md, level)
    requires u < n && level < st.core[u]
    ensures CanDemote(st, n, u)
    ensures Permutation(Demoted(st, n, u), n)
    ensures forall p :: 0 <= p < st.offset[st.core[u]] ==> Demoted(st, n, u).vertices[p] == st.vertices[p]
  {
    BinStart(st, n, md, level, u);
  }

  lemma DemoteOrdered(st: Peel, n: nat, md: nat, level: nat, u: nat)
    requires Ordered(st, n, md, level)
    requires u < n && level < st.core[u]
    ensures CanDemote(st, n, u)
    ensures Ordered(Demoted(st, n, u), n, md, level)
  {
    BinStart(st, n, md, level, u);
    DemotePermutation(st, n, md, level, u);
    var st' := Demoted(st, n, u);
    var d := st.core[u];
    var pu, pw := st.position[u], st.offset[d];
    forall p | 0 <= p < n
      ensures st'.core[st'.vertices[p]] == if p == pw then d - 1 else st.core[st.vertices[p]]
    {
      assert st.vertices[pu] == u;
    }
    assert Sorted(st', n) by {
      forall p, q | 0 <= p <= q < n ensures st'.core[st'.vertices[p]] <= st'.core[st'.vertices[q]] {
        assert st.core[st.vertices[p]] <= st.core[st.vertices[q]];
      }
    }
    forall e, p | level < e <= md && 0 <= p < n
      ensures p < st'.offset[e] <==> st'.core[st'.vertices[p]] < e
    {
      assert p < st.offset[e] <==> st.core[st.vertices[p]] < e;
      assert st.core[st.vertices[pw]] == d;
      if p < pw { assert st.core[st.vertices[p]] < d; }
      if p > pw { assert st.core[st.vertices[p]] >= d; }
    }
  }

  // ---------- Taking one vertex off the front ----------

  /** Between peelings: the front vertex i has been taken, and its neighbours in todo still count it. */
  ghost predicate HalfPeeled(st: Peel, adj: Adjacency, i: nat, level: nat, todo: set<nat>)
    requires Permutation(st, |adj|)
  {
    forall u :: u in Rest(st, |adj|, i + 1) ==>
      st.core[u] == Max(level, |adj[u] * Rest(st, |adj|, i + 1)| + (if u in todo then 1 else 0))
  }

  lemma FrontIsLeast(st: Peel, n: nat, i: nat)
    requires Permutation(st, n) && Sorted(st, n) && i < n
    ensures forall u :: u in Rest(st, n, i) ==> st.core[st.vertices[i]] <= st.core[u]
  {
    forall u | u in Rest(st, n, i) ensures st.core[st.vertices[i]] <= st.core[u] {
      assert st.vertices[st.position[u]] == u;
    }
  }

  /** When the level rises to c, what is left has minimum degree c. */
  lemma RestIsCore(adj: Adjacency, st: Peel, i: nat, level: nat, c: nat)
    requires Permutation(st, |adj|) && Peeled(adj, st, i, level) && level < c
    requires forall u :: u in Rest(st, |adj|, i) ==> c <= st.core[u]
    ensures forall u :: u in Rest(st, |adj|, i) ==> InCore(adj, c, u)
  {
    var rest := Rest(st, |adj|, i);
    assert MinDegree(adj, rest, c);
  }

  lemma FrontValue(adj: Adjacency, st: Peel, i: nat, level: nat) returns (c: nat)
    requires Permutation(st, |adj|) && i < |adj| && Supported(adj, st, i, level)
    ensures |st.core| == |st.vertices| == |adj| && st.vertices[i] < |adj| && c == st.core[st.vertices[i]]
    ensures level <= c
  {
    c := st.core[st.vertices[i]];
    assert st.vertices[i] in Rest(st, |adj|, i);
  }

  lemma RaiseBins(st: Peel, n: nat, md: nat, i: nat, level: nat)
    requires i < n && Ordered(st, n, md, level)
    ensures Permutation(st, n) && Sorted(st, n)
    ensures level <= st.core[st.vertices[i]] ==> Ordered(st, n, md, st.core[st.vertices[i]])
  {
  }

  lemma RaisePeeled(adj: Adjacency, st: Peel, i: nat, level: nat, c: nat)
    requires Permutation(st, |adj|) && Peeled(adj, st, i, level) && level <= c
    requires forall u :: u in Rest(st, |adj|, i) ==> c <= st.core[u]
    ensures Peeled(adj, st, i, c)
  {
    hide Rest;
  }

  lemma RaiseSupported(adj: Adjacency, st: Peel, i: nat, level: nat, c: nat)
    requires Permutation(st, |adj|) && Supported(adj, st, i, level) && level <= c
    requires forall u :: u in Rest(st, |adj|, i) ==> c <= st.core[u] && InCore(adj, c, u)
    ensures Supported(adj, st, i, c)
  {
    hide Rest, InCore;
  }

  /** The level rises to the value of the front vertex. */
  lemma RaiseLevel(adj: Adjacency, st: Peel, md: nat, i: nat, level: nat)
    requires i < |adj|
    requires Ordered(st, |adj|, md, level) && Peeled(adj, st, i, level) && Supported(adj, st, i, level)
    ensures var c := st.core[st.vertices[i]];
            level <= c && Ordered(st, |adj|, md, c) && Peeled(adj, st, i, c) && Supported(adj, st, i, c)
  {
    hide *;
    RaiseBins(st, |adj|, md, i, level);
    var c := FrontValue(adj, st, i, level);
    FrontIsLeast(st, |adj|, i);
    RaisePeeled(adj, st, i, level, c);
    if level < c {
      RestIsCore(adj, st, i, level, c);
      RaiseSupported(adj, st, i, level, c);
    }
  }

  /** No subgraph of minimum degree above the level contains the front vertex. */
  lemma FrontIsCapped(adj: Adjacency, st: Peel, i: nat, c: nat, s: set<nat>, k: int)
    requires i < |adj| && Permutation(st, |adj|) && c == st.core[st.vertices[i]]
    requires Peeled(adj, st, i, c) && Supported(adj, st, i, c) && Capped(adj, st, i)
    requires MinDegree(adj, s, k) && st.vertices[i] in s
    ensures k <= c
  {
    if k > c {
      var v, rest := st.vertices[i], Rest(st, |adj|, i);
      assert v in rest;
      assert s <= rest;
      SubsetCard(adj[v] * s, adj[v] * rest);
    }
  }

  lemma RestStep(st: Peel, n: nat, i: nat)
    requires Permutation(st, n) && i < n
    ensures Rest(st, n, i) == Rest(st, n, i + 1) + {st.vertices[i]}
    ensures st.vertices[i] !in Rest(st, n, i + 1)
    ensures forall u :: 0 <= u < n && st.position[u] < i + 1 ==> st.position[u] < i || u == st.vertices[i]
  {
    forall u | 0 <= u < n && st.position[u] == i ensures u == st.vertices[i] {
      assert st.vertices[st.position[u]] == u;
    }
  }

  lemma FrontSettles(adj: Adjacency, st: Peel, i: nat, c: nat)
    requires i < |adj| && Permutation(st, |adj|) && c == st.core[st.vertices[i]]
    requires Peeled(adj, st, i, c) && Supported(adj, st, i, c) && Capped(adj, st, i)
    ensures Capped(adj, st, i + 1)
  {
    forall s: set<nat>, k | MinDegree(adj, s, k)
      ensures forall u :: u in s && st.position[u] < i + 1 ==> k <= st.core[u]
    {
      forall u | u in s && st.position[u] < i + 1 ensures k <= st.core[u] {
        RestStep(st, |adj|, i);
        if u == st.vertices[i] {
          FrontIsCapped(adj, st, i, c, s, k);
        } else {
          assert st.position[u] < i;
        }
      }
    }
  }

  lemma FrontIsSupported(adj: Adjacency, st: Peel, i: nat, c: nat)
    requires i < |adj| && Permutation(st, |adj|) && c == st.core[st.vertices[i]]
    requires Supported(adj, st, i, c)
    ensures Supported(adj, st, i + 1, c)
  {
    RestStep(st, |adj|, i);
  }

  lemma InsertCard(a: set<nat>, s: set<nat>, v: nat)
    requires v !in s
    ensures |a * (s + {v})| == |a * s| + (if v in a then 1 else 0)
  {
    if v in a {
      assert a * (s + {v}) == a * s + {v};
    } else {
      assert a * (s + {v}) == a * s;
    }
  }

  lemma FrontStillCounted(adj: Adjacency, st: Peel, i: nat, c: nat)
    requires Undirected(adj) && i < |adj| && Permutation(st, |adj|) && Peeled(adj, st, i, c)
    ensures HalfPeeled(st, adj, i, c, adj[st.vertices[i]])
  {
    var v := st.vertices[i];
    var rest, rest' := Rest(st, |adj|, i), Rest(st, |adj|, i + 1);
    RestStep(st, |adj|, i);
    forall u | u in rest'
      ensures |adj[u] * rest| == |adj[u] * rest'| + (if u in adj[v] then 1 else 0)
    {
      InsertCard(adj[u], rest', v);
      assert v in adj[u] <==> u in adj[v];
    }
  }

  /** st' differs from st by lowering u, which has not been taken, and reordering what has not been taken. */
  ghost predicate LowersOne(st: Peel, st': Peel, n: nat, i: nat, u: nat)
    requires Permutation(st, n) && Permutation(st', n)
  {
    && u in Rest(st, n, i + 1) && st.core[u] > 0
    && st'.core == st.core[u := st.core[u] - 1]
    && (forall p :: 0 <= p <= i ==> p < n && st'.vertices[p] == st.vertices[p])
    && Rest(st', n, i + 1) == Rest(st, n, i + 1)
  }

  lemma SamePrefixSameRest(st: Peel, st': Peel, n: nat, i: nat)
    requires Permutation(st, n) && Permutation(st', n) && i < n
    requires forall p :: 0 <= p <= i ==> st'.vertices[p] == st.vertices[p]
    ensures Rest(st', n, i + 1) == Rest(st, n, i + 1)
  {
    forall x | 0 <= x < n
      ensures x in st.vertices && x in st'.vertices
      ensures st.position[x] < i + 1 <==> st'.position[x] < i + 1
    {
      assert st.vertices[st.position[x]] == x && st'.vertices[st'.position[x]] == x;
      if st.position[x] < i + 1 {
        assert st'.vertices[st.position[x]] == x;
      }
      if st'.position[x] < i + 1 {
        assert st.vertices[st'.position[x]] == x;
      }
    }
  }

  lemma DemoteLowersOne(st: Peel, n: nat, md: nat, i: nat, u: nat)
    requires i < n && u < n && Permutation(st, n) && Ordered(st, n, md, st.core[st.vertices[i]])
    requires st.core[u] > st.core[st.vertices[i]]
    ensures CanDemote(st, n, u)
    ensures Ordered(Demoted(st, n, u), n, md, st.core[st.vertices[i]])
    ensures LowersOne(st, Demoted(st, n, u), n, i, u)
  {
    var c := st.core[st.vertices[i]];
    DemoteOrdered(st, n, md, c, u);
    DemotePermutation(st, n, md, c, u);
    assert i < st.offset[st.core[u]];
    BinStart(st, n, md, c, u);
    SamePrefixSameRest(st, Demoted(st, n, u), n, i);
    assert st.vertices[st.position[u]] == u;
  }

  lemma TakenStaysTaken(st: Peel, st': Peel, n: nat, i: nat, u: nat)
    requires Permutation(st, n) && Permutation(st', n) && LowersOne(st, st', n, i, u)
    ensures forall x :: 0 <= x < n && st'.position[x] < i + 1 ==> st.position[x] < i + 1 && st'.core[x] == st.core[x]
  {
    forall x | 0 <= x < n && st'.position[x] < i + 1
      ensures st.position[x] < i + 1 && st'.core[x] == st.core[x]
    {
      assert st.vertices[st.position[x]] == x;
      assert x !in Rest(st', n, i + 1);
    }
  }

  lemma SameLengths(st: Peel, n: nat)
    requires Permutation(st, n)
    ensures |st.core| == |st.vertices| == |st.position| == n
  {
  }

  lemma RestInRange(st: Peel, n: nat, i: nat)
    requires Permutation(st, n)
    ensures forall x :: x in Rest(st, n, i) ==> x < n
  {
  }

  lemma RestPosition(st: Peel, n: nat, i: nat, u: nat)
    requires Permutation(st, n)
    ensures u in Rest(st, n, i) ==> u < n
    ensures u < |st.position| == n ==> (u in Rest(st, n, i) <==> st.position[u] >= i)
  {
    if u < n {
      assert st.vertices[st.position[u]] == u;
    }
  }

  lemma LoweredSupported(adj: Adjacency, st: Peel, st': Peel, i: nat, c: nat, u: nat)
    requires Permutation(st, |adj|) && Permutation(st', |adj|) && LowersOne(st, st', |adj|, i, u)
    requires st.core[u] > c && Supported(adj, st, i + 1, c)
    ensures Supported(adj, st', i + 1, c)
  {
    hide InCore, Rest, Permutation;
    TakenStaysTaken(st, st', |adj|, i, u);
    SameLengths(st, |adj|);
    SameLengths(st', |adj|);
    RestPosition(st, |adj|, i + 1, u);
    RestInRange(st', |adj|, i + 1);
    forall x | 0 <= x < |adj| && st'.position[x] < i + 1 ensures st'.core[x] <= c && InCore(adj, st'.core[x], x) {
      RestPosition(st, |adj|, i + 1, x);
    }
    forall x | x in Rest(st', |adj|, i + 1) ensures c <= st'.core[x] && InCore(adj, c, x) {
      RestPosition(st, |adj|, i + 1, x);
    }
  }

  lemma LoweredCapped(adj: Adjacency, st: Peel, st': Peel, i: nat, u: nat)
    requires Permutation(st, |adj|) && Permutation(st', |adj|) && LowersOne(st, st', |adj|, i, u)
    requires Capped(adj, st, i + 1)
    ensures Capped(adj, st', i + 1)
  {
    TakenStaysTaken(st, st', |adj|, i, u);
    forall s: set<nat>, k | MinDegree(adj, s, k)
      ensures forall x :: x in s && st'.position[x] < i + 1 ==> k <= st'.core[x]
    {
    }
  }

  lemma LoweredHalfPeeled(adj: Adjacency, st: Peel, st': Peel, i: nat, c: nat, todo: set<nat>, u: nat)
    requires Permutation(st, |adj|) && Permutation(st', |adj|) && LowersOne(st, st', |adj|, i, u)
    requires st.core[u] > c && u in todo && HalfPeeled(st, adj, i, c, todo)
    ensures HalfPeeled(st', adj, i, c, todo - {u})
  {
  }

  /** The front vertex i has been taken at level c, and its neighbours in todo are still to be visited. */
  ghost predicate Taking(adj: Adjacency, st: Peel, md: nat, i: nat, c: nat, todo: set<nat>) {
    && Ordered(st, |adj|, md, c)
    && i < |adj| && st.core[st.vertices[i]] == c
    && Supported(adj, st, i + 1, c)
    && Capped(adj, st, i + 1)
    && HalfPeeled(st, adj, i, c, todo)
  }

  lemma TakeFront(adj: Adjacency, st: Peel, md: nat, i: nat, level: nat)
    requires Undirected(adj) && i < |adj|
    requires Ordered(st, |adj|, md, level) && Peeled(adj, st, i, level)
    requires Supported(adj, st, i, level) && Capped(adj, st, i)
    ensures var v := st.vertices[i];
            Taking(adj, st, md, i, st.core[v], adj[v])
  {
    RaiseLevel(adj, st, md, i, level);
    FrontSettles(adj, st, i, st.core[st.vertices[i]]);
    FrontIsSupported(adj, st, i, st.core[st.vertices[i]]);
    FrontStillCounted(adj, st, i, st.core[st.vertices[i]]);
  }

  lemma VisitLarger(adj: Adjacency, st: Peel, md: nat, i: nat, c: nat, todo: set<nat>, u: nat)
    requires Taking(adj, st, md, i, c, todo) && u in todo && u < |adj| && st.core[u] > c
    ensures CanDemote(st, |adj|, u)
    ensures Taking(adj, Demoted(st, |adj|, u), md, i, c, todo - {u})
    ensures Demoted(st, |adj|, u).vertices[i] == st.vertices[i]
  {
    DemoteLowersOne(st, |adj|, md, i, u);
    var st' := Demoted(st, |adj|, u);
    LoweredSupported(adj, st, st', i, c, u);
    LoweredCapped(adj, st, st', i, u);
    LoweredHalfPeeled(adj, st, st', i, c, todo, u);
  }

  lemma VisitOther(adj: Adjacency, st: Peel, md: nat, i: nat, c: nat, todo: set<nat>, u: nat)
    requires Taking(adj, st, md, i, c, todo) && u in todo && u < |adj| && st.core[u] <= c
    ensures Taking(adj, st, md, i, c, todo - {u})
  {
    hide Sorted, Bins, Supported, Capped, Rest;
  }

  lemma AllVisited(adj: Adjacency, st: Peel, i: nat, c: nat)
    requires Permutation(st, |adj|) && HalfPeeled(st, adj, i, c, {})
    ensures Peeled(adj, st, i + 1, c)
  {
  }

  /** When every vertex has been taken, the values are the core numbers. */
  lemma AllSettled(adj: Adjacency, st: Peel, level: nat)
    requires Permutation(st, |adj|) && Supported(adj, st, |adj|, level) && Capped(adj, st, |adj|)
    ensures forall v :: 0 <= v < |adj| ==> IsCoreNumber(adj, v, st.core[v])
  {
    forall v, k | 0 <= v < |adj|
      ensures InCore(adj, k, v) <==> k <= st.core[v]
    {
      if k <= st.core[v] {
        assert InCore(adj, st.core[v], v);
        var s: set<nat> :| v in s && MinDegree(adj, s, st.core[v]);
        MinDegreeWeaken(adj, s, st.core[v], k);
      }
      if InCore(adj, k, v) {
        var s: set<nat> :| v in s && MinDegree(adj, s, k);
      }
    }
  }

  // ---------- The initial order: a stable counting sort by degree ----------

  ghost predicate Before(deg: seq<nat>, u: nat, v: nat)
    requires u < |deg| && v < |deg|
  {
    deg[u] < deg[v] || (deg[u] == deg[v] && u < v)
  }

  ghost function Earlier(deg: seq<nat>, v: nat): set<nat>
    requires v < |deg|
  {
    set u | u in Below(|deg|) && Before(deg, u, v)
  }

  ghost function Smaller(deg: seq<nat>, d: nat): set<nat> {
    set u | u in Below(|deg|) && deg[u] < d
  }

  /** The vertices below i of degree d. */
  ghost function Equal(deg: seq<nat>, d: nat, i: nat): set<nat>
    requires i <= |deg|
  {
    set u | u in Below(i) && deg[u] == d
  }

  lemma RankSplits(deg: seq<nat>, v: nat)
    requires v < |deg|
    ensures |Earlier(deg, v)| == |Smaller(deg, deg[v])| + |Equal(deg, deg[v], v)|
  {
    assert Earlier(deg, v) == Smaller(deg, deg[v]) + Equal(deg, deg[v], v);
  }

  lemma SmallerStep(deg: seq<nat>, d: nat)
    ensures |Smaller(deg, d + 1)| == |Smaller(deg, d)| + |Equal(deg, d, |deg|)|
  {
    assert Smaller(deg, d + 1) == Smaller(deg, d) + Equal(deg, d, |deg|);
  }

  lemma EqualStep(deg: seq<nat>, d: nat, i: nat)
    requires i < |deg|
    ensures |Equal(deg, d, i + 1)| == |Equal(deg, d, i)| + (if deg[i] == d then 1 else 0)
  {
    if deg[i] == d {
      assert Equal(deg, d, i + 1) == Equal(deg, d, i) + {i};
    } else {
      assert Equal(deg, d, i + 1) == Equal(deg, d, i);
    }
  }

  lemma RankIncreases(deg: seq<nat>, u: nat, v: nat)
    requires u < |deg| && v < |deg| && Before(deg, u, v)
    ensures |Earlier(deg, u)| < |Earlier(deg, v)|
  {
    SubsetCard(Earlier(deg, u) + {u}, Earlier(deg, v));
  }

  lemma RankInRange(deg: seq<nat>, v: nat)
    requires v < |deg|
    ensures |Earlier(deg, v)| < |deg|
  {
    BelowCard(|deg|);
    SubsetCard(Earlier(deg, v) + {v}, Below(|deg|));
  }

  /** The bin boundary of d separates the ranks of the vertices below degree d from the others. */
  lemma BoundarySeparates(deg: seq<nat>, v: nat, d: nat)
    requires v < |deg|
    ensures |Earlier(deg, v)| < |Smaller(deg, d)| <==> deg[v] < d
  {
    if deg[v] < d {
      SubsetCard(Earlier(deg, v) + {v}, Smaller(deg, d));
    } else {
      SubsetCard(Smaller(deg, d), Earlier(deg, v));
    }
  }

  /** Every vertex sits at its rank, every bin starts at its boundary. */
  ghost predicate SortedByDegree(st: Peel, n: nat, md: nat) {
    && |st.core| == |st.vertices| == |st.position| == n && |st.offset| == md + 1
    && (forall v :: 0 <= v < n ==> st.core[v] <= md)
    && (forall v :: 0 <= v < n ==> st.position[v] == |Earlier(st.core, v)|)
    && (forall v :: 0 <= v < n ==> st.position[v] < n && st.vertices[st.position[v]] == v)
    && (forall d :: 0 <= d <= md ==> st.offset[d] == |Smaller(st.core, d)|)
  }

  ghost function Rank(deg: seq<nat>, v: nat): nat {
    if v < |deg| then |Earlier(deg, v)| else 0
  }

  lemma RankInjective(deg: seq<nat>, u: nat, v: nat)
    requires u < |deg| && v < |deg| && Rank(deg, u) == Rank(deg, v)
    ensures u == v
  {
    if u != v {
      if Before(deg, u, v) { RankIncreases(deg, u, v); } else { RankIncreases(deg, v, u); }
    }
  }

  ghost function Ranks(deg: seq<nat>, i: nat): set<nat> {
    set v | v in Below(i) :: Rank(deg, v)
  }

  lemma {:induction false} RanksCard(deg: seq<nat>, i: nat)
    requires i <= |deg|
    ensures |Ranks(deg, i)| == i
  {
    hide Rank;
    if i > 0 {
      RanksCard(deg, i - 1);
      if Rank(deg, i - 1) in Ranks(deg, i - 1) {
        var v :| v in Below(i - 1) && Rank(deg, v) == Rank(deg, i - 1);
        RankInjective(deg, v, i - 1);
      }
      assert Ranks(deg, i) == Ranks(deg, i - 1) + {Rank(deg, i - 1)};
    }
  }

  lemma RanksCover(deg: seq<nat>, p: nat)
    requires p < |deg|
    ensures exists v: nat :: v < |deg| && Rank(deg, v) == p
  {
    RanksCard(deg, |deg|);
    BelowCard(|deg|);
    forall r | r in Ranks(deg, |deg|) ensures r in Below(|deg|) {
      var v :| v in Below(|deg|) && Rank(deg, v) == r;
      RankInRange(deg, v);
    }
    FullSubset(Ranks(deg, |deg|), Below(|deg|));
    assert p in Below(|deg|);
  }

  lemma SortPermutes(st: Peel, n: nat, md: nat)
    requires SortedByDegree(st, n, md)
    ensures Permutation(st, n)
  {
    forall p | 0 <= p < n ensures st.vertices[p] < n && st.position[st.vertices[p]] == p {
      RanksCover(st.core, p);
      var v: nat :| v < n && Rank(st.core, v) == p;
      assert st.vertices[st.position[v]] == v;
    }
  }

  lemma SortOrders(st: Peel, n: nat, md: nat)
    requires SortedByDegree(st, n, md)
    ensures Ordered(st, n, md, 0)
  {
    SortPermutes(st, n, md);
    forall p, q | 0 <= p <= q < n
      ensures st.core[st.vertices[p]] <= st.core[st.vertices[q]]
    {
      var u, v := st.vertices[p], st.vertices[q];
      if Before(st.core, v, u) {
        RankIncreases(st.core, v, u);
      }
    }
    forall d, p | 0 < d <= md && 0 <= p < n
      ensures p < st.offset[d] <==> st.core[st.vertices[p]] < d
    {
      BoundarySeparates(st.core, st.vertices[p], d);
    }
  }

  lemma NothingCapped(adj: Adjacency, st: Peel)
    requires Permutation(st, |adj|)
    ensures Capped(adj, st, 0)
  {
  }

  lemma AllRemain(st: Peel, n: nat)
    requires Permutation(st, n)
    ensures forall u: nat :: u in Rest(st, n, 0) <==> u < n
  {
    forall u: nat | u < n ensures u in st.vertices {
      assert st.vertices[st.position[u]] == u;
    }
  }

  lemma AllNeighboursRemain(adj: Adjacency, u: nat, rest: set<nat>)
    requires Loopless(adj) && u < |adj| && forall v: nat :: v in rest <==> v < |adj|
    ensures adj[u] * rest == adj[u]
  {
  }

  lemma AloneInCore(adj: Adjacency, u: nat)
    requires u < |adj|
    ensures InCore(adj, 0, u)
  {
    assert MinDegree(adj, {u}, 0);
  }

  /** Before any vertex is taken, values are degrees and nothing is claimed yet. */
  lemma NothingTaken(adj: Adjacency, st: Peel)
    requires Permutation(st, |adj|) && Loopless(adj)
    requires forall v :: 0 <= v < |adj| ==> st.core[v] == |adj[v]|
    ensures Peeled(adj, st, 0, 0) && Supported(adj, st, 0, 0) && Capped(adj, st, 0)
  {
    hide Rest, Loopless, InCore, Capped;
    var rest := Rest(st, |adj|, 0);
    NothingCapped(adj, st);
    AllRemain(st, |adj|);
    forall u | u in rest ensures st.core[u] == |adj[u] * rest| && InCore(adj, 0, u) {
      AllNeighboursRemain(adj, u, rest);
      AloneInCore(adj, u);
    }
  }

  // ---------- The arrays in place ----------

  ghost function Snapshot(core: array<nat>, vertices: array<nat>, position: array<nat>, offset: array<nat>): Peel
    reads core, vertices, position, offset
  {
    Peel(core[..], vertices[..], position[..], offset[..])
  }

  ghost predicate Distinct(core: array<nat>, vertices: array<nat>, position: array<nat>, offset: array<nat>) {
    && core != vertices && core != position && core != offset
    && vertices != position && vertices != offset && position != offset
  }

  /** The demotion of u, in place. */
  method DemoteInPlace(core: array<nat>, vertices: array<nat>, position: array<nat>, offset: array<nat>, u: nat)
    requires Distinct(core, vertices, position, offset)
    requires Permutation(Snapshot(core, vertices, position, offset), core.Length)
    requires CanDemote(Snapshot(core, vertices, position, offset), core.Length, u)
    modifies core, vertices, position, offset
    ensures Snapshot(core, vertices, position, offset)
            == Demoted(old(Snapshot(core, vertices, position, offset)), core.Length, u)
  {
    var curDegreeU := core[u];
    var positionU := position[u];
    var positionW := offset[curDegreeU];
    var w := vertices[positionW];
    if u != w {
      position[u] := positionW;
      position[w] := positionU;
      vertices[positionU] := w;
      vertices[positionW] := u;
    }
    offset[curDegreeU] := offset[curDegreeU] + 1;
    core[u] := core[u] - 1;
  }

  /** degree_bin[d] counts the vertices of degree d, and the core values start as degrees. */
  method CountDegrees(deg: seq<nat>, md: nat, core: array<nat>, bin: array<nat>)
    requires core != bin && core.Length == |deg| && bin.Length == md + 1
    requires forall v :: 0 <= v < |deg| ==> deg[v] <= md
    requires forall d :: 0 <= d <= md ==> bin[d] == 0
    modifies core, bin
    ensures core[..] == deg
    ensures forall d :: 0 <= d <= md ==> bin[d] == |Equal(deg, d, |deg|)|
  {
    assert forall d :: 0 <= d <= md ==> Equal(deg, d, 0) == {};
    for i := 0 to |deg|
      invariant core[..i] == deg[..i]
      invariant forall d :: 0 <= d <= md ==> bin[d] == |Equal(deg, d, i)|
    {
      core[i] := deg[i];
      forall d | 0 <= d <= md
        ensures |Equal(deg, d, i + 1)| == |Equal(deg, d, i)| + (if deg[i] == d then 1 else 0)
      {
        EqualStep(deg, d, i);
      }
      bin[deg[i]] := bin[deg[i]] + 1;
    }
  }

  method StartBins(ghost deg: seq<nat>, md: nat, bin: array<nat>, offset: array<nat>)
    requires bin != offset && bin.Length == offset.Length == md + 1
    requires forall d :: 0 <= d <= md ==> bin[d] == |Equal(deg, d, |deg|)|
    modifies offset
    ensures forall d :: 0 <= d <= md ==> offset[d] == |Smaller(deg, d)|
  {
    var start := 0;
    assert Smaller(deg, 0) == {};
    for i := 0 to md + 1
      invariant start == |Smaller(deg, i)|
      invariant forall d :: 0 <= d < i ==> offset[d] == |Smaller(deg, d)|
    {
      offset[i] := start;
      SmallerStep(deg, i);
      start := start + bin[i];
    }
  }

  ghost predicate Placed(deg: seq<nat>, vertices: seq<nat>, position: seq<nat>, i: nat)
    requires i <= |deg| == |vertices| == |position|
  {
    forall v :: 0 <= v < i ==>
      position[v] < |deg| && position[v] == |Earlier(deg, v)| && vertices[position[v]] == v
  }

  lemma PlaceStep(deg: seq<nat>, vertices: seq<nat>, position: seq<nat>, i: nat)
    requires i < |deg| == |vertices| == |position| && Placed(deg, vertices, position, i)
    ensures |Earlier(deg, i)| < |deg|
    ensures Placed(deg, vertices[|Earlier(deg, i)| := i], position[i := |Earlier(deg, i)|], i + 1)
  {
    RankInRange(deg, i);
    forall v | 0 <= v < i ensures |Earlier(deg, v)| != |Earlier(deg, i)| {
      if Before(deg, v, i) { RankIncreases(deg, v, i); } else { RankIncreases(deg, i, v); }
    }
  }

  /** Every vertex goes to the next free position of its bin. */
  method Place(deg: seq<nat>, md: nat, vertices: array<nat>, position: array<nat>, offset: array<nat>)
    requires forall v :: 0 <= v < |deg| ==> deg[v] <= md
    requires vertices != position && vertices != offset && position != offset
    requires vertices.Length == position.Length == |deg| && offset.Length == md + 1
    requires forall d :: 0 <= d <= md ==> offset[d] == |Smaller(deg, d)|
    modifies vertices, position, offset
    ensures forall d :: 0 <= d <= md ==> offset[d] == |Smaller(deg, d + 1)|
    ensures Placed(deg, vertices[..], position[..], |deg|)
  {
    assert forall d :: 0 <= d <= md ==> Equal(deg, d, 0) == {};
    for i := 0 to |deg|
      invariant forall d :: 0 <= d <= md ==> offset[d] == |Smaller(deg, d)| + |Equal(deg, d, i)|
      invariant Placed(deg, vertices[..], position[..], i)
    {
      RankSplits(deg, i);
      PlaceStep(deg, vertices[..], position[..], i);
      forall d | 0 <= d <= md
        ensures |Equal(deg, d, i + 1)| == |Equal(deg, d, i)| + (if deg[i] == d then 1 else 0)
      {
        EqualStep(deg, d, i);
      }
      position[i] := offset[deg[i]];
      vertices[position[i]] := i;
      offset[deg[i]] := offset[deg[i]] + 1;
    }
    forall d | 0 <= d <= md ensures |Smaller(deg, d + 1)| == |Smaller(deg, d)| + |Equal(deg, d, |deg|)| {
      SmallerStep(deg, d);
    }
  }

  method ShiftBins(ghost deg: seq<nat>, md: nat, offset: array<nat>)
    requires offset.Length == md + 1
    requires forall d :: 0 <= d <= md ==> offset[d] == |Smaller(deg, d + 1)|
    modifies offset
    ensures forall d :: 0 <= d <= md ==> offset[d] == |Smaller(deg, d)|
  {
    var i := md;
    while i > 0
      invariant 0 <= i <= md
      invariant forall d :: 0 <= d <= i ==> offset[d] == |Smaller(deg, d + 1)|
      invariant forall d :: i < d <= md ==> offset[d] == |Smaller(deg, d)|
    {
      offset[i] := offset[i - 1];
      i := i - 1;
    }
    offset[0] := 0;
    assert Smaller(deg, 0) == {};
  }

  /** Values start as degrees, vertices in a stable counting sort by degree. */
  method SortByDegree(deg: seq<nat>, md: nat, core: array<nat>, vertices: array<nat>, position: array<nat>,
                      offset: array<nat>)
    requires forall v :: 0 <= v < |deg| ==> deg[v] <= md
    requires Distinct(core, vertices, position, offset)
    requires core.Length == vertices.Length == position.Length == |deg| && offset.Length == md + 1
    modifies core, vertices, position, offset
    ensures SortedByDegree(Snapshot(core, vertices, position, offset), |deg|, md)
    ensures core[..] == deg
  {
    var bin := new nat[md + 1](_ => 0);
    CountDegrees(deg, md, core, bin);
    StartBins(deg, md, bin, offset);
    Place(deg, md, vertices, position, offset);
    ShiftBins(deg, md, offset);
  }

  lemma SnapshotIs(core: array<nat>, vertices: array<nat>, position: array<nat>, offset: array<nat>)
    ensures Snapshot(core, vertices, position, offset) == Peel(core[..], vertices[..], position[..], offset[..])
  {
  }

  lemma TakingParts(adj: Adjacency, st: Peel, md: nat, i: nat, c: nat, todo: set<nat>)
    requires Taking(adj, st, md, i, c, todo)
    ensures Permutation(st, |adj|) && |st.core| == |st.vertices| == |adj|
    ensures i < |adj| && st.vertices[i] < |adj| && st.core[st.vertices[i]] == c
  {
  }

  lemma NeighbourInRange(adj: Adjacency, ns: seq<nat>, v: nat, j: nat)
    requires Loopless(adj) && v < |adj| && Elements(ns) == adj[v] && j < |ns|
    ensures ns[j] < |adj|
  {
    assert ns[j] in adj[v];
  }

  lemma NothingLeft(ns: seq<nat>)
    ensures Elements(ns[|ns|..]) == {}
  {
  }

  lemma NeighbourStep(ns: seq<nat>, j: nat)
    requires NoDuplicates(ns) && j < |ns|
    ensures ns[j] in Elements(ns[j..])
    ensures Elements(ns[j..]) - {ns[j]} == Elements(ns[j + 1..])
  {
    assert ns[j..] == [ns[j]] + ns[j + 1..];
  }

  /** The neighbours ns of the vertex taken, each demoted when its value is larger. */
  method VisitNeighbours(ghost adj: Adjacency, ns: seq<nat>, ghost md: nat,
                         core: array<nat>, vertices: array<nat>, position: array<nat>, offset: array<nat>, i: nat)
    requires Loopless(adj) && Distinct(core, vertices, position, offset) && core.Length == vertices.Length == |adj|
    requires NoDuplicates(ns) && i < |adj| && vertices[i] < |adj| && Elements(ns) == adj[vertices[i]]
    requires Taking(adj, Snapshot(core, vertices, position, offset), md, i, core[vertices[i]], Elements(ns))
    modifies core, vertices, position, offset
    ensures Taking(adj, Snapshot(core, vertices, position, offset), md, i, old(core[vertices[i]]), {})
  {
    hide *;
    SnapshotIs(core, vertices, position, offset);
    var v := vertices[i];
    ghost var level := core[v];
    assert ns[0..] == ns;
    for j := 0 to |ns|
      invariant Taking(adj, Snapshot(core, vertices, position, offset), md, i, level, Elements(ns[j..]))
      invariant vertices[i] == v
    {
      var u := ns[j];
      NeighbourStep(ns, j);
      NeighbourInRange(adj, ns, v, j);
      SnapshotIs(core, vertices, position, offset);
      TakingParts(adj, Snapshot(core, vertices, position, offset), md, i, level, Elements(ns[j..]));
      if core[u] > core[v] {
        VisitLarger(adj, Snapshot(core, vertices, position, offset), md, i, level, Elements(ns[j..]), u);
        DemoteInPlace(core, vertices, position, offset, u);
        SnapshotIs(core, vertices, position, offset);
      } else {
        VisitOther(adj, Snapshot(core, vertices, position, offset), md, i, level, Elements(ns[j..]), u);
      }
    }
    NothingLeft(ns);
  }

  /** What holds before the vertex at position i is taken. */
  ghost predicate Peeling(adj: Adjacency, st: Peel, md: nat, i: nat, level: nat) {
    Ordered(st, |adj|, md, level) && Peeled(adj, st, i, level) && Supported(adj, st, i, level) && Capped(adj, st, i)
  }

  /** One vertex, with neighbours ns, off the front. */
  method TakeVertex(ghost adj: Adjacency, ns: seq<nat>, ghost md: nat,
                    core: array<nat>, vertices: array<nat>, position: array<nat>, offset: array<nat>,
                    i: nat, ghost level: nat)
    requires Undirected(adj) && Distinct(core, vertices, position, offset) && core.Length == vertices.Length == |adj|
    requires NoDuplicates(ns) && i < |adj| && vertices[i] < |adj| && Elements(ns) == adj[vertices[i]]
    requires Peeling(adj, Snapshot(core, vertices, position, offset), md, i, level)
    modifies core, vertices, position, offset
    ensures Peeling(adj, Snapshot(core, vertices, position, offset), md, i + 1, old(core[vertices[i]]))
  {
    ghost var c := core[vertices[i]];
    TakeFront(adj, Snapshot(core, vertices, position, offset), md, i, level);
    VisitNeighbours(adj, ns, md, core, vertices, position, offset, i);
    AllVisited(adj, Snapshot(core, vertices, position, offset), i, c);
  }

  /** The vertex at the front, and its neighbour list. */
  lemma FrontRow(g: Csr, st: Peel, md: nat, i: nat, level: nat)
    requires g.Simple() && i < g.V() && Peeling(g.Adjacency(), st, md, i, level)
    ensures |st.core| == |st.vertices| == g.V() && st.vertices[i] < g.V()
    ensures var v := st.vertices[i];
            && v + 1 < |g.vertices| && g.vertices[v] <= g.vertices[v + 1] <= |g.edges|
            && NoDuplicates(g.N(v)) && Elements(g.N(v)) == g.Adjacency()[v]
  {
    hide Peeled, Supported, Capped;
  }

  /** With all vertices taken, the values are the core numbers. */
  lemma PeelingDone(adj: Adjacency, st: Peel, md: nat, level: nat)
    requires Undirected(adj) && Peeling(adj, st, md, |adj|, level)
    ensures |st.core| == |adj|
    ensures forall v :: 0 <= v < |adj| ==> IsCoreNumber(adj, v, st.core[v])
  {
    hide IsCoreNumber;
    AllSettled(adj, st, level);
  }

  /** Peeling in a sorted order: the values become the core numbers. */
  method PeelAll(g: Csr, ghost md: nat, core: array<nat>, vertices: array<nat>, position: array<nat>,
                 offset: array<nat>)
    requires g.Simple() && Undirected(g.Adjacency())
    requires Distinct(core, vertices, position, offset) && core.Length == vertices.Length == g.V()
    requires Peeling(g.Adjacency(), Snapshot(core, vertices, position, offset), md, 0, 0)
    modifies core, vertices, position, offset
    ensures forall v :: 0 <= v < g.V() ==> IsCoreNumber(g.Adjacency(), v, core[v])
  {
    hide *;
    SimpleIsWellFormed(g);
    VertexCount(g);
    ghost var adj := g.Adjacency();
    ghost var level: nat := 0;
    for i := 0 to |g.vertices| - 1
      invariant Peeling(adj, Snapshot(core, vertices, position, offset), md, i, level)
    {
      SnapshotIs(core, vertices, position, offset);
      FrontRow(g, Snapshot(core, vertices, position, offset), md, i, level);
      var v := vertices[i];
      ghost var c := core[v];
      TakeVertex(adj, g.N(v), md, core, vertices, position, offset, i, level);
      level := c;
    }
    SnapshotIs(core, vertices, position, offset);
    PeelingDone(adj, Snapshot(core, vertices, position, offset), md, level);
  }

  lemma SortedIsPeeling(adj: Adjacency, deg: seq<nat>, st: Peel, md: nat)
    requires Undirected(adj) && |deg| == |adj| && st.core == deg
    requires forall v :: 0 <= v < |adj| ==> deg[v] == |adj[v]|
    requires SortedByDegree(st, |adj|, md)
    ensures Peeling(adj, st, md, 0, 0)
  {
    SortOrders(st, |adj|, md);
    NothingTaken(adj, st);
  }

  /** K-core decomposition: sort by degree, then peel. */
  method ComputeCores(g: Csr, md: nat, core: array<nat>)
    requires g.Simple() && Undirected(g.Adjacency()) && core.Length == g.V()
    requires forall v :: 0 <= v < g.V() ==> g.Degree(v) <= md
    modifies core
    ensures forall v :: 0 <= v < g.V() ==> IsCoreNumber(g.Adjacency(), v, core[v])
  {
    var n := g.V();
    var vertices := new nat[n];
    var position := new nat[n];
    var offset := new nat[md + 1];
    var deg := seq(n, v requires 0 <= v < n => g.Degree(v) as nat);
    assert forall v :: 0 <= v < n ==> deg[v] == g.Degree(v);
    forall v | 0 <= v < n ensures deg[v] == |g.Adjacency()[v]| {
      NoDuplicatesCard(g.N(v));
    }
    hide Csr.Simple, Csr.WellFormed, Undirected, IsCoreNumber, Peeling, SortedByDegree;
    SortByDegree(deg, md, core, vertices, position, offset);
    SortedIsPeeling(g.Adjacency(), deg, Snapshot(core, vertices, position, offset), md);
    PeelAll(g, md, core, vertices, position, offset);
  }
}
