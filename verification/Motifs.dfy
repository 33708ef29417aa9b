/** The six connected graphs on four vertices, and how a new vertex decides among them
    (sansa/include/pangolin_cpu/vertex_miner.h:271-319). */
module Motifs {
  import opened Counting
  import opened CsrGraph
  import opened Canonical
  import opened Miner

  /** The subgraph induced on {a, b, c, d} is the motif pid, drawn on a, b, c, d in this order:
      0 the path a-b-c-d, 1 the star with centre a, 2 the cycle a-b-c-d-a,
      3 the triangle a-b-c with a tail a-d, 4 the diamond lacking c-d, 5 the clique. */
  ghost predicate Drawn(adj: Adjacency, pid: nat, a: nat, b: nat, c: nat, d: nat) {
    && (Adj(adj, a, b) <==> pid in {0, 1, 2, 3, 4, 5})
    && (Adj(adj, a, c) <==> pid in {1, 3, 4, 5})
    && (Adj(adj, a, d) <==> pid in {1, 2, 3, 4, 5})
    && (Adj(adj, b, c) <==> pid in {0, 2, 3, 4, 5})
    && (Adj(adj, b, d) <==> pid in {4, 5})
    && (Adj(adj, c, d) <==> pid in {0, 2, 5})
  }

  predicate Distinct(a: nat, b: nat, c: nat, d: nat) {
    a != b && a != c && a != d && b != c && b != d && c != d
  }

  /** s induces the motif pid. */
  ghost predicate Induces(adj: Adjacency, s: set<nat>, pid: nat) {
    exists a: nat, b: nat, c: nat, d: nat ::
      Distinct(a, b, c, d) && s == {a, b, c, d} && Drawn(adj, pid, a, b, c, d)
  }

  // ---------- Telling the motifs apart by degrees ----------

  ghost function OfDegree(adj: Adjacency, s: set<nat>, d: nat): set<nat> {
    set u | u in s && u < |adj| && |adj[u] * s| == d
  }

  /** Which motif, from the number of vertices of degree 3 and of degree 1. */
  ghost function ByDegrees(three: nat, one: nat): nat {
    if three == 4 then 5
    else if three == 2 then 4
    else if three == 1 then (if one == 3 then 1 else 3)
    else if one == 2 then 0 else 2
  }

  ghost function MotifOf(adj: Adjacency, s: set<nat>): nat {
    ByDegrees(|OfDegree(adj, s, 3)|, |OfDegree(adj, s, 1)|)
  }

  function Bit(b: bool): nat {
    if b then 1 else 0
  }

  lemma OneLess(t: set<nat>, a: nat)
    ensures |t| == |t - {a}| + Bit(a in t)
  {
    assert a in t ==> t == (t - {a}) + {a};
    assert a !in t ==> t == t - {a};
  }

  lemma CountAmongFour(t: set<nat>, a: nat, b: nat, c: nat, d: nat)
    requires Distinct(a, b, c, d) && t <= {a, b, c, d}
    ensures |t| == Bit(a in t) + Bit(b in t) + Bit(c in t) + Bit(d in t)
  {
    var t1 := t - {a};
    var t2 := t1 - {b};
    var t3 := t2 - {c};
    OneLess(t, a);
    OneLess(t1, b);
    OneLess(t2, c);
    OneLess(t3, d);
    assert t3 - {d} == {};
  }

  lemma DegreesOfFour(adj: Adjacency, a: nat, b: nat, c: nat, d: nat)
    requires Loopless(adj) && Distinct(a, b, c, d) && a < |adj|
    ensures |adj[a] * {a, b, c, d}| == Bit(Adj(adj, a, b)) + Bit(Adj(adj, a, c)) + Bit(Adj(adj, a, d))
  {
    CountAmongFour(adj[a] * {a, b, c, d}, a, b, c, d);
  }

  lemma SixEdges(adj: Adjacency, a: nat, b: nat, c: nat, d: nat)
    requires Undirected(adj)
    ensures Loopless(adj)
    ensures Adj(adj, a, b) == Adj(adj, b, a) && Adj(adj, a, c) == Adj(adj, c, a) && Adj(adj, a, d) == Adj(adj, d, a)
    ensures Adj(adj, b, c) == Adj(adj, c, b) && Adj(adj, b, d) == Adj(adj, d, b) && Adj(adj, c, d) == Adj(adj, d, c)
  {
  }

  lemma DegreesAre(adj: Adjacency, s: set<nat>, a: nat, b: nat, c: nat, d: nat)
    requires s == {a, b, c, d} && a < |adj| && b < |adj| && c < |adj| && d < |adj|
    ensures forall k :: OfDegree(adj, s, k) <= s
    ensures forall k, v :: v in s ==> v < |adj| && (v in OfDegree(adj, s, k) <==> |adj[v] * s| == k)
    ensures s == {b, a, c, d} == {c, a, b, d} == {d, a, b, c}
  {
  }

  /** How many of four vertices have degree k among them, from their six possible edges. */
  lemma FourOfDegree(adj: Adjacency, a: nat, b: nat, c: nat, d: nat, k: nat)
    requires Undirected(adj) && Distinct(a, b, c, d)
    requires a < |adj| && b < |adj| && c < |adj| && d < |adj|
    ensures var ab, ac, ad, bc, bd, cd := Bit(Adj(adj, a, b)), Bit(Adj(adj, a, c)), Bit(Adj(adj, a, d)),
                                          Bit(Adj(adj, b, c)), Bit(Adj(adj, b, d)), Bit(Adj(adj, c, d));
            |OfDegree(adj, {a, b, c, d}, k)|
            == Bit(ab + ac + ad == k) + Bit(ab + bc + bd == k) + Bit(ac + bc + cd == k) + Bit(ad + bd + cd == k)
  {
    var s := {a, b, c, d};
    SixEdges(adj, a, b, c, d);
    DegreesAre(adj, s, a, b, c, d);
    DegreesOfFour(adj, a, b, c, d);
    DegreesOfFour(adj, b, a, c, d);
    DegreesOfFour(adj, c, a, b, d);
    DegreesOfFour(adj, d, a, b, c);
    CountAmongFour(OfDegree(adj, s, k), a, b, c, d);
    hide *;
    assert a in s && b in s && c in s && d in s;
  }

  lemma MotifIs(adj: Adjacency, s: set<nat>)
    ensures MotifOf(adj, s) == ByDegrees(|OfDegree(adj, s, 3)|, |OfDegree(adj, s, 1)|)
  {
  }

  lemma DrawnByDegrees(adj: Adjacency, pid: nat, a: nat, b: nat, c: nat, d: nat)
    requires Undirected(adj) && Distinct(a, b, c, d) && pid < 6
    requires a < |adj| && b < |adj| && c < |adj| && d < |adj|
    requires Drawn(adj, pid, a, b, c, d)
    ensures MotifOf(adj, {a, b, c, d}) == pid
  {
    MotifIs(adj, {a, b, c, d});
    FourOfDegree(adj, a, b, c, d, 3);
    FourOfDegree(adj, a, b, c, d, 1);
    hide Adj, OfDegree, Undirected, MotifOf;
  }

  /** A motif number is the right one only if degrees say so. */
  lemma InducesByDegrees(adj: Adjacency, s: set<nat>, pid: nat)
    requires Undirected(adj) && s <= Below(|adj|) && pid < 6 && Induces(adj, s, pid)
    ensures MotifOf(adj, s) == pid
  {
    var a: nat, b: nat, c: nat, d: nat :| Distinct(a, b, c, d) && s == {a, b, c, d} && Drawn(adj, pid, a, b, c, d);
    assert a in s && b in s && c in s && d in s;
    DrawnByDegrees(adj, pid, a, b, c, d);
  }

  // ---------- Growing a 3-vertex embedding ----------

  lemma Redraw(adj: Adjacency, s: set<nat>, pid: nat, a: nat, b: nat, c: nat, d: nat)
    requires Distinct(a, b, c, d) && s == {a, b, c, d} && Drawn(adj, pid, a, b, c, d)
    ensures Induces(adj, s, pid)
  {
  }

  ghost predicate FourVertices(adj: Adjacency, s: set<nat>, a: nat, b: nat, c: nat, d: nat) {
    Distinct(a, b, c, d) && s == {a, b, c, d} && a < |adj| && b < |adj| && c < |adj| && d < |adj|
  }

  /** A triangle and one more vertex: only the number of new edges matters. */
  lemma TriangleGrows(adj: Adjacency, s: set<nat>, a: nat, b: nat, c: nat, d: nat)
    requires Undirected(adj) && FourVertices(adj, s, a, b, c, d)
    requires Adj(adj, a, b) && Adj(adj, a, c) && Adj(adj, b, c)
    requires Adj(adj, a, d) || Adj(adj, b, d) || Adj(adj, c, d)
    ensures Induces(adj, s, 2 + Bit(Adj(adj, a, d)) + Bit(Adj(adj, b, d)) + Bit(Adj(adj, c, d)))
  {
    hide Induces;
    if Adj(adj, a, d) {
      if Adj(adj, b, d) {
        Redraw(adj, s, if Adj(adj, c, d) then 5 else 4, a, b, c, d);
      } else if Adj(adj, c, d) {
        Redraw(adj, s, 4, a, c, b, d);
      } else {
        Redraw(adj, s, 3, a, b, c, d);
      }
    } else if Adj(adj, b, d) {
      if Adj(adj, c, d) {
        Redraw(adj, s, 4, b, c, a, d);
      } else {
        Redraw(adj, s, 3, b, a, c, d);
      }
    } else {
      Redraw(adj, s, 3, c, a, b, d);
    }
  }

  /** The motif of a 3-chain with centre m and one more vertex: the number of new edges, and whether one meets the
      centre. */
  function ChainPid(newEdges: nat, toCentre: bool): nat {
    if newEdges == 1 then (if toCentre then 1 else 0)
    else if newEdges == 2 then (if toCentre then 3 else 2)
    else 4
  }

  lemma ChainGrows(adj: Adjacency, s: set<nat>, m: nat, p: nat, q: nat, d: nat)
    requires Undirected(adj) && FourVertices(adj, s, m, p, q, d)
    requires Adj(adj, m, p) && Adj(adj, m, q) && !Adj(adj, p, q)
    requires Adj(adj, m, d) || Adj(adj, p, d) || Adj(adj, q, d)
    ensures Induces(adj, s, ChainPid(Bit(Adj(adj, m, d)) + Bit(Adj(adj, p, d)) + Bit(Adj(adj, q, d)), Adj(adj, m, d)))
  {
    if Adj(adj, m, d) {
      if Adj(adj, p, d) {
        if Adj(adj, q, d) {
          Redraw(adj, s, 4, m, d, p, q);
        } else {
          Redraw(adj, s, 3, m, p, d, q);
        }
      } else if Adj(adj, q, d) {
        Redraw(adj, s, 3, m, q, d, p);
      } else {
        Redraw(adj, s, 1, m, p, q, d);
      }
    } else if Adj(adj, p, d) {
      if Adj(adj, q, d) {
        Redraw(adj, s, 2, m, p, d, q);
      } else {
        Redraw(adj, s, 0, d, p, m, q);
      }
    } else {
      Redraw(adj, s, 0, d, q, m, p);
    }
  }

  /** 0 for a triangle, 1 for a chain. */
  ghost function Pid3(adj: Adjacency, e: seq<nat>): nat
    requires |e| >= 3
  {
    if Adj(adj, e[0], e[1]) && Adj(adj, e[0], e[2]) && Adj(adj, e[1], e[2]) then 0 else 1
  }

  lemma ThreeCanonical(adj: Adjacency, e: seq<nat>)
    requires Undirected(adj) && IsCanonical(adj, e) && |e| == 3
    ensures Adj(adj, e[0], e[1]) && (Adj(adj, e[0], e[2]) || Adj(adj, e[1], e[2]))
    ensures Pid3(adj, e) == 1 ==> (Adj(adj, e[0], e[2]) <==> !Adj(adj, e[1], e[2]))
    ensures e[0] < |adj| && e[1] < |adj| && e[2] < |adj|
  {
    assert CanonicalStep(adj, e[..1], e[1]) && CanonicalStep(adj, e[..2], e[2]);
  }

  /** Three vertices joined pairwise. */
  ghost predicate IsTriangle(adj: Adjacency, s: set<nat>) {
    exists a: nat, b: nat, c: nat ::
      a != b && a != c && b != c && s == {a, b, c} && Adj(adj, a, b) && Adj(adj, a, c) && Adj(adj, b, c)
  }

  /** Three vertices with exactly two pairs joined, those of b. */
  ghost predicate IsWedge(adj: Adjacency, s: set<nat>) {
    exists a: nat, b: nat, c: nat ::
      a != b && a != c && b != c && s == {a, b, c} && Adj(adj, a, b) && Adj(adj, b, c) && !Adj(adj, a, c)
  }

  lemma TriangleJoins(adj: Adjacency, s: set<nat>, u: nat, v: nat)
    requires Undirected(adj) && IsTriangle(adj, s) && u in s && v in s && u != v
    ensures Adj(adj, u, v)
  {
  }

  lemma WedgeLacks(adj: Adjacency, s: set<nat>) returns (u: nat, v: nat)
    requires IsWedge(adj, s)
    ensures u in s && v in s && u != v && !Adj(adj, u, v)
  {
    var a: nat, b: nat, c: nat :|
      a != b && a != c && b != c && s == {a, b, c} && Adj(adj, a, b) && Adj(adj, b, c) && !Adj(adj, a, c);
    u, v := a, c;
  }

  lemma TriangleIs(adj: Adjacency, s: set<nat>, a: nat, b: nat, c: nat)
    requires a != b && a != c && b != c && s == {a, b, c} && Adj(adj, a, b) && Adj(adj, a, c) && Adj(adj, b, c)
    ensures IsTriangle(adj, s)
  {
  }

  lemma WedgeIs(adj: Adjacency, s: set<nat>, a: nat, b: nat, c: nat)
    requires a != b && a != c && b != c && s == {a, b, c} && Adj(adj, a, b) && Adj(adj, b, c) && !Adj(adj, a, c)
    ensures IsWedge(adj, s)
  {
  }

  lemma ThreeDistinct(adj: Adjacency, e: seq<nat>)
    requires Undirected(adj) && IsCanonical(adj, e) && |e| == 3
    ensures e[0] != e[1] && e[0] != e[2] && e[1] != e[2] && Elements(e) == {e[0], e[1], e[2]}
  {
    CanonicalDistinct(adj, e);
    assert e == [e[0], e[1], e[2]];
  }

  /** The pattern id of three vertices: 0 if and only if they are joined pairwise, 1 if and only if just two pairs are,
      and nothing else. */
  lemma Pid3Induces(adj: Adjacency, e: seq<nat>)
    requires Undirected(adj) && IsCanonical(adj, e) && |e| == 3
    ensures Pid3(adj, e) == 0 <==> IsTriangle(adj, Elements(e))
    ensures Pid3(adj, e) == 1 <==> IsWedge(adj, Elements(e))
    ensures Pid3(adj, e) < 2
  {
    hide IsCanonical, IsTriangle, IsWedge;
    ThreeCanonical(adj, e);
    ThreeDistinct(adj, e);
    var s := Elements(e);
    if Pid3(adj, e) == 0 {
      TriangleIs(adj, s, e[0], e[1], e[2]);
      if IsWedge(adj, s) {
        var u, v := WedgeLacks(adj, s);
        TriangleJoins(adj, s, u, v);
      }
    } else {
      if IsTriangle(adj, s) {
        TriangleJoins(adj, s, e[0], e[2]);
        TriangleJoins(adj, s, e[1], e[2]);
      }
      if Adj(adj, e[1], e[2]) {
        WedgeIs(adj, s, e[0], e[1], e[2]);
      } else {
        WedgeIs(adj, s, e[1], e[0], e[2]);
      }
    }
  }

  ghost function NewEdges(adj: Adjacency, e: seq<nat>, dst: nat): nat
    requires |e| == 3
  {
    Bit(Adj(adj, e[0], dst)) + Bit(Adj(adj, e[1], dst)) + Bit(Adj(adj, e[2], dst))
  }

  /** Which vertex of a 3-chain is the centre. */
  ghost function Centre(adj: Adjacency, e: seq<nat>): nat
    requires |e| == 3
  {
    if Adj(adj, e[1], e[2]) then 1 else 0
  }

  ghost function Pid4(adj: Adjacency, e: seq<nat>, dst: nat): nat
    requires |e| == 3
  {
    if Pid3(adj, e) == 0 then NewEdges(adj, e, dst) + 2
    else ChainPid(NewEdges(adj, e, dst), Adj(adj, e[Centre(adj, e)], dst))
  }

  /** The pattern id found when extending a 3-vertex embedding is the motif of the four vertices. */
  lemma Pid4Induces(adj: Adjacency, e: seq<nat>, dst: nat)
    requires Undirected(adj) && IsCanonical(adj, e) && |e| == 3 && CanonicalStep(adj, e, dst)
    ensures Pid4(adj, e, dst) < 6 && Induces(adj, Elements(e + [dst]), Pid4(adj, e, dst))
  {
    ThreeCanonical(adj, e);
    CanonicalDistinct(adj, e);
    var s := Elements(e + [dst]);
    var a, b, c := e[0], e[1], e[2];
    assert e == [a, b, c] && e + [dst] == [a, b, c, dst];
    assert s == {a, b, c, dst};
    assert Distinct(a, b, c, dst);
    if Pid3(adj, e) == 0 {
      TriangleGrows(adj, s, a, b, c, dst);
    } else if Centre(adj, e) == 1 {
      ChainGrows(adj, s, b, a, c, dst);
    } else {
      ChainGrows(adj, s, a, b, c, dst);
    }
  }

  // ---------- The program's decision ----------

  /** Which of the three vertices are joined to dst; those before idx are known not to be. */
  method Connections(g: Csr, idx: nat, dst: nat, emb: seq<nat>) returns (connected: seq<bool>, numEdges: nat)
    requires g.Simple() && Symmetric(g.Adjacency()) && |emb| == 3 && idx < 3 && dst < g.V()
    requires forall i :: 0 <= i < 3 ==> emb[i] < g.V()
    requires Adj(g.Adjacency(), emb[idx], dst)
    requires forall i :: 0 <= i < idx ==> !Adj(g.Adjacency(), emb[i], dst)
    ensures |connected| == 3 && forall i :: 0 <= i < 3 ==> (connected[i] <==> Adj(g.Adjacency(), emb[i], dst))
    ensures numEdges == NewEdges(g.Adjacency(), emb, dst)
  {
    hide Csr.Simple, Csr.WellFormed, Symmetric, Adj;
    ghost var adj := g.Adjacency();
    numEdges := 1;
    connected := [false, false, false][idx := true];
    for j := idx + 1 to 3
      invariant |connected| == 3
      invariant forall i :: 0 <= i < j ==> (connected[i] <==> Adj(adj, emb[i], dst))
      invariant forall i :: j <= i < 3 ==> !connected[i]
      invariant numEdges == Bit(connected[0]) + Bit(connected[1]) + Bit(connected[2])
    {
      var c := IsConnected(g, emb[j], dst);
      if c {
        numEdges := numEdges + 1;
        connected := connected[j := true];
      }
    }
  }

  /** The first connection is with emb[idx], and which of the others there are gives their number. */
  lemma ConnectionsAre(adj: Adjacency, emb: seq<nat>, dst: nat, idx: nat)
    requires |emb| == 3 && idx < 3 && Adj(adj, emb[idx], dst)
    requires forall i :: 0 <= i < idx ==> !Adj(adj, emb[i], dst)
    ensures 1 <= NewEdges(adj, emb, dst) <= 3
    ensures forall c: nat :: c < 3 && NewEdges(adj, emb, dst) == 1 ==> (idx == c <==> Adj(adj, emb[c], dst))
  {
    hide Adj;
  }

  lemma Pid4Is(adj: Adjacency, e: seq<nat>, dst: nat)
    requires |e| == 3
    ensures var n, c := NewEdges(adj, e, dst), if Adj(adj, e[1], e[2]) then 1 else 0;
            Pid4(adj, e, dst)
            == if Pid3(adj, e) == 0 then n + 2
               else if n == 1 then (if Adj(adj, e[c], dst) then 1 else 0)
               else if n == 2 then (if Adj(adj, e[c], dst) then 3 else 2)
               else 4
  {
    hide Adj, NewEdges;
  }

  method FourVertexPid(g: Csr, idx: nat, dst: nat, emb: seq<nat>, embPid: nat) returns (pid: nat)
    requires g.Simple() && Symmetric(g.Adjacency()) && |emb| == 3 && idx < 3 && dst < g.V()
    requires emb[0] < g.V() && emb[1] < g.V() && emb[2] < g.V()
    requires Adj(g.Adjacency(), emb[idx], dst)
    requires forall i :: 0 <= i < idx ==> !Adj(g.Adjacency(), emb[i], dst)
    requires embPid == Pid3(g.Adjacency(), emb)
    ensures pid == Pid4(g.Adjacency(), emb, dst)
  {
    SimpleIsWellFormed(g);
    hide *;
    var connected, numEdges := Connections(g, idx, dst, emb);
    ConnectionsAre(g.Adjacency(), emb, dst, idx);
    Pid4Is(g.Adjacency(), emb, dst);
    if embPid == 0 {
      pid := numEdges + 2;
    } else {
      var joined := IsConnected(g, emb[1], emb[2]);
      var center := if joined then 1 else 0;
      if numEdges == 1 {
        pid := if idx == center then 1 else 0;
      } else if numEdges == 2 {
        pid := if connected[center] then 3 else 2;
      } else {
        pid := 4;
      }
    }
  }

  method ThreeVertexPid(g: Csr, idx: nat, dst: nat, emb: seq<nat>) returns (pid: nat)
    requires g.Simple() && Undirected(g.Adjacency()) && |emb| == 2 && idx < 2
    requires IsCanonical(g.Adjacency(), emb)
    requires Adj(g.Adjacency(), emb[idx], dst) && Accepts(g.Adjacency(), emb, idx, dst)
    ensures pid == Pid3(g.Adjacency(), emb + [dst])
  {
    ghost var adj := g.Adjacency();
    assert CanonicalStep(adj, emb[..1], emb[1]);
    assert Adj(adj, emb[0], emb[1]);
    pid := 1;
    if idx == 0 {
      var closed := IsConnected(g, emb[1], dst);
      if closed {
        pid := 0;
      }
    }
  }

  /** The pattern id of emb extended by dst, which was reached from position idx. */
  method FindMotifPatternId(g: Csr, n: nat, idx: nat, dst: nat, emb: seq<nat>, embPid: nat) returns (pid: nat)
    requires g.Simple() && Undirected(g.Adjacency()) && (n == 2 || n == 3) && |emb| == n && idx < n
    requires IsCanonical(g.Adjacency(), emb)
    requires Adj(g.Adjacency(), emb[idx], dst) && Accepts(g.Adjacency(), emb, idx, dst)
    requires n == 3 ==> embPid == Pid3(g.Adjacency(), emb)
    ensures n == 2 ==> pid == Pid3(g.Adjacency(), emb + [dst])
    ensures n == 3 ==> pid == Pid4(g.Adjacency(), emb, dst)
  {
    if n == 2 {
      pid := ThreeVertexPid(g, idx, dst, emb);
    } else {
      ThreeCanonical(g.Adjacency(), emb);
      pid := FourVertexPid(g, idx, dst, emb, embPid);
    }
  }
}
