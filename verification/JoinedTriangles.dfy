/** Two triangles joined by an edge. */
module JoinedTriangles {
  import opened Counting
  import opened CsrGraph
  import opened Paths
  import opened Cliques

  ghost predicate JoinsAt(adj: Adjacency, ts: set<set<nat>>, e: set<nat>, t: set<nat>, u: set<nat>, a: nat, b: nat) {
    && ts == {t, u} && e == {a, b} && t !! u && a in t && b in u
    && t in CliquesOf(adj, 3) && u in CliquesOf(adj, 3) && Adj(adj, a, b)
  }

  /** Two triangles without a common vertex, and an edge from one to the other. */
  ghost predicate Joins(adj: Adjacency, ts: set<set<nat>>, e: set<nat>) {
    exists t: set<nat>, u: set<nat>, a: nat, b: nat :: JoinsAt(adj, ts, e, t, u, a, b)
  }

  ghost function JoinedPairs(adj: Adjacency): set<(set<set<nat>>, set<nat>)> {
    set ts, e | ts in Subsets(CliquesOf(adj, 3)) && e in Subsets(Below(|adj|)) && Joins(adj, ts, e) :: (ts, e)
  }

  ghost predicate Closed(adj: Adjacency, p: seq<nat>) {
    |p| == 6 && Adj(adj, p[0], p[2]) && Adj(adj, p[3], p[5])
  }

  /** The paths of six vertices whose first three and last three are triangles. */
  ghost function TwoClosed(adj: Adjacency): set<seq<nat>> {
    set p | p in PathsOf(adj, 6) && Closed(adj, p)
  }

  // ---------- Eight paths for each pair ----------

  function SwapFront(p: seq<nat>): seq<nat> {
    if |p| == 6 then [p[1], p[0], p[2], p[3], p[4], p[5]] else p
  }

  function SwapBack(p: seq<nat>): seq<nat> {
    if |p| == 6 then [p[0], p[1], p[2], p[3], p[5], p[4]] else p
  }

  function SwapSides(p: seq<nat>): seq<nat> {
    if |p| == 6 then [p[4], p[5], p[3], p[2], p[0], p[1]] else p
  }

  ghost function FrontUp(adj: Adjacency): set<seq<nat>> {
    set p | p in TwoClosed(adj) && |p| == 6 && p[0] < p[1]
  }

  ghost function BothUp(adj: Adjacency): set<seq<nat>> {
    set p | p in FrontUp(adj) && |p| == 6 && p[4] < p[5]
  }

  ghost function AllUp(adj: Adjacency): set<seq<nat>> {
    set p | p in BothUp(adj) && |p| == 6 && p[2] < p[3]
  }

  /** Six different vertices, with the links of two joined triangles. */
  ghost predicate Shape(adj: Adjacency, p: seq<nat>) {
    && |p| == 6 && NoDuplicates(p) && (forall i :: 0 <= i < 6 ==> p[i] < |adj|)
    && Adj(adj, p[0], p[1]) && Adj(adj, p[1], p[2]) && Adj(adj, p[0], p[2])
    && Adj(adj, p[2], p[3])
    && Adj(adj, p[3], p[4]) && Adj(adj, p[4], p[5]) && Adj(adj, p[3], p[5])
  }

  lemma ClosedIsShape(adj: Adjacency, p: seq<nat>)
    ensures p in TwoClosed(adj) <==> Shape(adj, p)
  {
    PathsMember(adj, 6, p);
    if Shape(adj, p) {
      forall i | 0 <= i < 5 ensures Adj(adj, p[i], p[i + 1]) {
      }
    }
    if p in TwoClosed(adj) {
      assert Adj(adj, p[0], p[0 + 1]) && Adj(adj, p[1], p[1 + 1]) && Adj(adj, p[2], p[2 + 1]);
      assert Adj(adj, p[3], p[3 + 1]) && Adj(adj, p[4], p[4 + 1]);
    }
  }

  /** The six vertices pairwise different. */
  lemma SixDiffer(p: seq<nat>)
    requires |p| == 6
    ensures NoDuplicates(p) <==>
            && p[0] != p[1] && p[0] != p[2] && p[0] != p[3] && p[0] != p[4] && p[0] != p[5]
            && p[1] != p[2] && p[1] != p[3] && p[1] != p[4] && p[1] != p[5]
            && p[2] != p[3] && p[2] != p[4] && p[2] != p[5]
            && p[3] != p[4] && p[3] != p[5]
            && p[4] != p[5]
  {
  }

  lemma FrontSwapped(adj: Adjacency, p: seq<nat>)
    requires Symmetric(adj) && Shape(adj, p)
    ensures Shape(adj, SwapFront(p)) && SwapFront(SwapFront(p)) == p && |SwapFront(p)| == 6
    ensures SwapFront(p)[0] < SwapFront(p)[1] <==> !(p[0] < p[1])
  {
    hide NoDuplicates, Symmetric, Adj;
    SixDiffer(p);
    SixDiffer(SwapFront(p));
    BothWays(adj, p[0], p[1]);
  }

  lemma BackSwapped(adj: Adjacency, p: seq<nat>)
    requires Symmetric(adj) && Shape(adj, p)
    ensures Shape(adj, SwapBack(p)) && SwapBack(SwapBack(p)) == p && |SwapBack(p)| == 6
    ensures SwapBack(p)[0] == p[0] && SwapBack(p)[1] == p[1]
    ensures SwapBack(p)[4] < SwapBack(p)[5] <==> !(p[4] < p[5])
  {
    hide NoDuplicates, Symmetric, Adj;
    SixDiffer(p);
    SixDiffer(SwapBack(p));
    BothWays(adj, p[4], p[5]);
  }

  lemma SidesSwapped(adj: Adjacency, p: seq<nat>)
    requires Symmetric(adj) && Shape(adj, p)
    ensures Shape(adj, SwapSides(p)) && SwapSides(SwapSides(p)) == p
    ensures var q := SwapSides(p);
            && |q| == 6 && q[0] == p[4] && q[1] == p[5] && q[4] == p[0] && q[5] == p[1] && q[2] == p[3] && q[3] == p[2]
    ensures p[2] != p[3]
  {
    hide NoDuplicates, Symmetric, Adj;
    SixDiffer(p);
    SixDiffer(SwapSides(p));
    BothWays(adj, p[3], p[5]);
    BothWays(adj, p[2], p[3]);
    BothWays(adj, p[0], p[2]);
    BothWays(adj, p[3], p[4]);
    BothWays(adj, p[1], p[2]);
  }

  lemma ShapeLength(adj: Adjacency, p: seq<nat>)
    ensures Shape(adj, p) ==> |p| == 6
  {
  }

  lemma UpMembers(adj: Adjacency, p: seq<nat>)
    ensures p in FrontUp(adj) <==> Shape(adj, p) && p[0] < p[1]
    ensures p in BothUp(adj) <==> Shape(adj, p) && p[0] < p[1] && p[4] < p[5]
    ensures p in AllUp(adj) <==> Shape(adj, p) && p[0] < p[1] && p[4] < p[5] && p[2] < p[3]
  {
    hide Shape, TwoClosed;
    ClosedIsShape(adj, p);
    ShapeLength(adj, p);
  }

  lemma HalfByFront(adj: Adjacency)
    requires Symmetric(adj)
    ensures |TwoClosed(adj)| == 2 * |FrontUp(adj)|
  {
    hide *;
    forall p | p in TwoClosed(adj)
      ensures SwapFront(p) in TwoClosed(adj) && SwapFront(SwapFront(p)) == p
      ensures SwapFront(p) in FrontUp(adj) <==> p !in FrontUp(adj)
    {
      ClosedIsShape(adj, p);
      ShapeLength(adj, p);
      FrontSwapped(adj, p);
      ClosedIsShape(adj, SwapFront(p));
      UpMembers(adj, p);
      UpMembers(adj, SwapFront(p));
    }
    forall p | p in FrontUp(adj) ensures p in TwoClosed(adj) {
      UpMembers(adj, p);
      ClosedIsShape(adj, p);
    }
    Halves(TwoClosed(adj), FrontUp(adj), SwapFront);
  }

  lemma HalfByBack(adj: Adjacency)
    requires Symmetric(adj)
    ensures |FrontUp(adj)| == 2 * |BothUp(adj)|
  {
    hide *;
    forall p | p in FrontUp(adj)
      ensures SwapBack(p) in FrontUp(adj) && SwapBack(SwapBack(p)) == p
      ensures SwapBack(p) in BothUp(adj) <==> p !in BothUp(adj)
    {
      UpMembers(adj, p);
      ShapeLength(adj, p);
      BackSwapped(adj, p);
      UpMembers(adj, SwapBack(p));
    }
    forall p | p in BothUp(adj) ensures p in FrontUp(adj) {
      UpMembers(adj, p);
    }
    Halves(FrontUp(adj), BothUp(adj), SwapBack);
  }

  lemma HalfBySides(adj: Adjacency)
    requires Symmetric(adj)
    ensures |BothUp(adj)| == 2 * |AllUp(adj)|
  {
    hide *;
    forall p | p in BothUp(adj)
      ensures SwapSides(p) in BothUp(adj) && SwapSides(SwapSides(p)) == p
      ensures SwapSides(p) in AllUp(adj) <==> p !in AllUp(adj)
    {
      UpMembers(adj, p);
      ShapeLength(adj, p);
      SidesSwapped(adj, p);
      UpMembers(adj, SwapSides(p));
    }
    forall p | p in AllUp(adj) ensures p in BothUp(adj) {
      UpMembers(adj, p);
    }
    Halves(BothUp(adj), AllUp(adj), SwapSides);
  }

  // ---------- One path for each pair ----------

  ghost function PairOf(p: seq<nat>): (set<set<nat>>, set<nat>) {
    if |p| == 6 then ({{p[0], p[1], p[2]}, {p[3], p[4], p[5]}}, {p[2], p[3]}) else ({}, {})
  }

  lemma PairMember(adj: Adjacency, ts: set<set<nat>>, e: set<nat>)
    ensures (ts, e) in JoinedPairs(adj) <==>
            ts <= CliquesOf(adj, 3) && e <= Below(|adj|) && Joins(adj, ts, e)
  {
  }

  lemma CliqueMember(adj: Adjacency, k: nat, s: set<nat>)
    ensures s in CliquesOf(adj, k) <==>
            && s <= Below(|adj|) && |s| == k
            && forall u, v :: u in s && v in s && u != v ==> Adj(adj, u, v)
  {
  }

  lemma ThreeCard(a: nat, b: nat, c: nat)
    requires a != b && b != c && a != c
    ensures |{a, b, c}| == 3
  {
  }

  lemma Triangle(adj: Adjacency, a: nat, b: nat, c: nat)
    requires Undirected(adj) && Adj(adj, a, b) && Adj(adj, b, c) && Adj(adj, a, c)
    ensures {a, b, c} in CliquesOf(adj, 3)
  {
    BothWays(adj, a, b);
    BothWays(adj, b, c);
    BothWays(adj, a, c);
    assert a != b && b != c && a != c;
    CliqueMember(adj, 3, {a, b, c});
    ThreeCard(a, b, c);
  }

  lemma JoinsWith(adj: Adjacency, ts: set<set<nat>>, e: set<nat>, t: set<nat>, u: set<nat>, a: nat, b: nat)
    requires JoinsAt(adj, ts, e, t, u, a, b)
    ensures Joins(adj, ts, e)
  {
  }

  lemma FoundPair(adj: Adjacency, p: seq<nat>)
    requires Undirected(adj) && Shape(adj, p)
    ensures PairOf(p) in JoinedPairs(adj)
  {
    hide CliquesOf, Joins, Undirected, NoDuplicates, Adj;
    SixDiffer(p);
    var t, u, e := {p[0], p[1], p[2]}, {p[3], p[4], p[5]}, {p[2], p[3]};
    Triangle(adj, p[0], p[1], p[2]);
    Triangle(adj, p[3], p[4], p[5]);
    JoinsWith(adj, {t, u}, e, t, u, p[2], p[3]);
    PairMember(adj, {t, u}, e);
  }

  lemma SomeMember(s: set<nat>) returns (x: nat)
    requires |s| > 0
    ensures x in s && |s - {x}| == |s| - 1
  {
    x :| x in s;
  }

  /** The triangle of a and its two other vertices in order. */
  lemma OtherTwo(adj: Adjacency, t: set<nat>, a: nat) returns (x: nat, y: nat)
    requires Undirected(adj) && t in CliquesOf(adj, 3) && a in t
    ensures t == {x, y, a} && x < y && x != a && y != a
    ensures Adj(adj, x, y) && Adj(adj, x, a) && Adj(adj, y, a) && x < |adj| && y < |adj| && a < |adj|
  {
    CliqueMember(adj, 3, t);
    x := SomeMember(t - {a});
    y := SomeMember(t - {a} - {x});
    assert t - {a} - {x} - {y} == {};
    assert t == {x, y, a};
    if y < x {
      x, y := y, x;
    }
  }

  /** The two sides, the smaller end of the joining edge in the first. */
  lemma SidesOf(adj: Adjacency, ts: set<set<nat>>, e: set<nat>)
    returns (t: set<nat>, u: set<nat>, a: nat, b: nat)
    requires Undirected(adj) && Joins(adj, ts, e)
    ensures ts == {t, u} && e == {a, b} && t !! u && a in t && b in u
    ensures t in CliquesOf(adj, 3) && u in CliquesOf(adj, 3) && Adj(adj, a, b) && a < b
  {
    hide CliquesOf;
    t, u, a, b :| JoinsAt(adj, ts, e, t, u, a, b);
    assert a != b;
    if b < a {
      BothWays(adj, a, b);
      assert {u, t} == {t, u} && {b, a} == {a, b};
      t, u, a, b := u, t, b, a;
    }
  }

  lemma ShapeFrom(adj: Adjacency, t: set<nat>, u: set<nat>, p: seq<nat>)
    requires Symmetric(adj) && |p| == 6 && t == {p[0], p[1], p[2]} && u == {p[4], p[5], p[3]} && t !! u
    requires forall i :: 0 <= i < 6 ==> p[i] < |adj|
    requires p[0] != p[2] && p[1] != p[2] && p[0] < p[1] && p[4] != p[3] && p[5] != p[3] && p[4] < p[5]
    requires Adj(adj, p[0], p[1]) && Adj(adj, p[0], p[2]) && Adj(adj, p[1], p[2]) && Adj(adj, p[2], p[3])
    requires Adj(adj, p[4], p[5]) && Adj(adj, p[4], p[3]) && Adj(adj, p[5], p[3])
    ensures Shape(adj, p)
  {
    hide NoDuplicates, Symmetric, Adj;
    SixDiffer(p);
    BothWays(adj, p[4], p[3]);
    BothWays(adj, p[5], p[3]);
    forall i, j | 0 <= i < 3 <= j < 6 ensures p[i] != p[j] {
      assert p[i] in t && p[j] in u;
    }
  }

  lemma PairIs(p: seq<nat>)
    requires |p| == 6
    ensures PairOf(p) == ({{p[0], p[1], p[2]}, {p[3], p[4], p[5]}}, {p[2], p[3]})
  {
  }

  lemma UndirectedParts(adj: Adjacency)
    requires Undirected(adj)
    ensures Symmetric(adj) && Loopless(adj)
  {
  }

  lemma PathOfPair(adj: Adjacency, ts: set<set<nat>>, e: set<nat>) returns (p: seq<nat>)
    requires Undirected(adj) && (ts, e) in JoinedPairs(adj)
    ensures p in AllUp(adj) && PairOf(p) == (ts, e)
  {
    hide *;
    PairMember(adj, ts, e);
    var t, u, a, b := SidesOf(adj, ts, e);
    var x, y := OtherTwo(adj, t, a);
    var z, w := OtherTwo(adj, u, b);
    p := [x, y, a, b, z, w];
    UndirectedParts(adj);
    assert u == {b, z, w};
    ShapeFrom(adj, t, u, p);
    PairIs(p);
    UpMembers(adj, p);
  }

  lemma ShapeDiffers(adj: Adjacency, p: seq<nat>)
    requires Shape(adj, p)
    ensures |p| == 6 && p[0] != p[2] && p[1] != p[2] && p[4] != p[3] && p[5] != p[3]
    ensures p[2] !in {p[3], p[4], p[5]} && p[3] !in {p[0], p[1], p[2]}
  {
    SixDiffer(p);
  }

  lemma SameTwo(a: nat, b: nat, x: nat, y: nat)
    requires {a, b} == {x, y} && a < b && x < y
    ensures a == x && b == y
  {
    assert a in {x, y} && b in {x, y};
  }

  lemma SameThird(a: nat, b: nat, x: nat, y: nat, c: nat)
    requires {a, b, c} == {x, y, c} || {c, a, b} == {c, x, y}
    requires a < b && x < y && a != c && b != c && x != c && y != c
    ensures a == x && b == y
  {
    assert a in {x, y, c} && b in {x, y, c};
  }

  /** The triangles, the joining edge and the order of their vertices determine the path. */
  lemma SamePair(adj: Adjacency, p: seq<nat>, q: seq<nat>)
    requires p in AllUp(adj) && q in AllUp(adj) && PairOf(p) == PairOf(q)
    ensures p == q
  {
    hide Shape, AllUp, NoDuplicates, Adj;
    UpMembers(adj, p);
    UpMembers(adj, q);
    ShapeLength(adj, p);
    ShapeLength(adj, q);
    ShapeDiffers(adj, p);
    ShapeDiffers(adj, q);
    SameTwo(p[2], p[3], q[2], q[3]);
    var t, u, t', u' := {p[0], p[1], p[2]}, {p[3], p[4], p[5]}, {q[0], q[1], q[2]}, {q[3], q[4], q[5]};
    assert t in {t', u'} && u in {t', u'};
    assert p[2] in t && p[2] !in u' && p[3] in u && p[3] !in t';
    assert t == t' && u == u';
    SameThird(p[0], p[1], q[0], q[1], p[2]);
    SameThird(p[4], p[5], q[4], q[5], p[3]);
  }

  lemma PairsArePaths(adj: Adjacency)
    requires Undirected(adj)
    ensures |AllUp(adj)| == |JoinedPairs(adj)|
  {
    hide *;
    forall p | p in AllUp(adj) ensures PairOf(p) in JoinedPairs(adj) {
      UpMembers(adj, p);
      FoundPair(adj, p);
    }
    forall p, q | p in AllUp(adj) && q in AllUp(adj) && PairOf(p) == PairOf(q) ensures p == q {
      SamePair(adj, p, q);
    }
    forall h | h in JoinedPairs(adj) ensures exists p :: p in AllUp(adj) && PairOf(p) == h {
      assert h == (h.0, h.1);
      var p := PathOfPair(adj, h.0, h.1);
    }
    BijectionCard(AllUp(adj), JoinedPairs(adj), PairOf);
  }

  /** Each pair of joined triangles is eight paths. */
  lemma EightPaths(adj: Adjacency)
    requires Undirected(adj)
    ensures |TwoClosed(adj)| == 8 * |JoinedPairs(adj)|
  {
    hide *;
    UndirectedParts(adj);
    HalfByFront(adj);
    HalfByBack(adj);
    HalfBySides(adj);
    PairsArePaths(adj);
  }

  // ---------- Growing paths of three ----------

  /** One for a path of six with both triangles closed. */
  ghost function Ends(adj: Adjacency): seq<nat> -> int {
    p => if Closed(adj, p) then 1 else 0
  }

  lemma EndsIs(adj: Adjacency, p: seq<nat>)
    requires p in PathsOf(adj, 6)
    ensures Ends(adj)(p) == if p in TwoClosed(adj) then 1 else 0
  {
  }

  lemma ClosedArePaths(adj: Adjacency)
    ensures TwoClosed(adj) <= PathsOf(adj, 6)
  {
  }

  lemma Eight(x: int)
    ensures Pow(2, 3) * x == 8 * x
  {
    assert Pow(2, 3) == 8;
  }

  /** Growing every path of three by three vertices, to a path of six with both triangles closed: 64 times for each
      pair. */
  lemma GrownPairs(adj: Adjacency)
    requires Undirected(adj)
    ensures Sum(PathsOf(adj, 3), WaysFor(adj, 3, Ends(adj))) == 64 * |JoinedPairs(adj)|
  {
    hide *;
    GrowAll(adj, 3, 3, Ends(adj));
    forall p | p in PathsOf(adj, 6) ensures Ends(adj)(p) == if p in TwoClosed(adj) then 1 else 0 {
      EndsIs(adj, p);
    }
    ClosedArePaths(adj);
    SumOverPart(PathsOf(adj, 6), TwoClosed(adj), Ends(adj));
    SumConstant(TwoClosed(adj), Ends(adj), 1);
    EightPaths(adj);
    Eight(Sum(PathsOf(adj, 6), Ends(adj)));
  }
}
