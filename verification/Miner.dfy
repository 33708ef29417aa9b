/** Adjacency queries by binary search over sorted neighbour lists
    (sansa/include/pangolin_cpu/miner.h, sansa/src/common/graph.cc:733-764). */
module Miner {
  import opened CsrGraph

  /** Binary search for key in edges[begin..end). */
  method BinarySearch(g: Csr, key: nat, begin: nat, end: nat) returns (found: bool)
    requires begin <= end <= |g.edges|
    requires StrictlyIncreasing(g.edges[begin..end])
    ensures found <==> key in g.edges[begin..end]
  {
    ghost var row := g.edges[begin..end];
    var l: int, r: int := begin, end - 1;
    while r >= l
      invariant begin <= l <= r + 1 <= end
      invariant forall i :: 0 <= i < l - begin ==> row[i] < key
      invariant forall i :: r + 1 - begin <= i < |row| ==> key < row[i]
    {
      var mid := l + (r - l) / 2;
      var value := g.edges[mid];
      assert value == row[mid - begin];
      if value == key {
        return true;
      }
      if value < key {
        l := mid + 1;
      } else {
        r := mid - 1;
      }
    }
    return false;
  }

  /** Are a and b joined by an edge? The shorter list is searched. */
  method IsConnected(g: Csr, a: nat, b: nat) returns (found: bool)
    requires g.Simple() && Symmetric(g.Adjacency()) && a < g.V() && b < g.V()
    ensures found <==> Adj(g.Adjacency(), a, b)
  {
    ghost var adj := g.Adjacency();
    assert b in adj[a] <==> a in adj[b];
    if g.Degree(a) == 0 || g.Degree(b) == 0 {
      assert adj[a] == {} || adj[b] == {};
      return false;
    }
    var key, search := a, b;
    if g.Degree(a) < g.Degree(b) {
      key, search := b, a;
    }
    assert g.N(search) == g.edges[g.vertices[search]..g.vertices[search + 1]];
    found := BinarySearch(g, key, g.vertices[search], g.vertices[search + 1]);
  }

  /** Does the oriented list of `search` hold key? */
  method IsConnectedDag(g: Csr, key: nat, search: nat) returns (found: bool)
    requires g.Simple() && search < g.V()
    ensures found <==> Adj(g.Adjacency(), search, key)
  {
    if g.Degree(search) == 0 {
      return false;
    }
    assert g.N(search) == g.edges[g.vertices[search]..g.vertices[search + 1]];
    found := BinarySearch(g, key, g.vertices[search], g.vertices[search + 1]);
  }
}
