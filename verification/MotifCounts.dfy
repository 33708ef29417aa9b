/** What the per-thread motif counters add up to
    (sansa/include/pangolin_cpu/vertex_miner.h:121-145). */
module MotifCounts {
  import opened Counting
  import opened CsrGraph
  import opened Canonical
  import opened Exploration
  import opened Exactness
  import opened Motifs

  /** The pattern id of a complete embedding of three or four vertices. */
  ghost function PidOf(adj: Adjacency, e: seq<nat>): nat {
    if |e| == 3 then Pid3(adj, e)
    else if |e| == 4 then Pid4(adj, e[..3], e[3])
    else 0
  }

  /** How many of the vertices ds extend e to pattern pid. */
  ghost function Hits(adj: Adjacency, e: seq<nat>, ds: seq<nat>, pid: nat): nat {
    if ds == [] then 0
    else Hits(adj, e, ds[..|ds| - 1], pid) + Bit(PidOf(adj, e + [ds[|ds| - 1]]) == pid)
  }

  ghost function HitsUpTo(adj: Adjacency, es: seq<seq<nat>>, ext: seq<nat> -> seq<nat>, m: nat, pid: nat): nat {
    if m == 0 || m > |es| then 0
    else HitsUpTo(adj, es, ext, m - 1, pid) + Hits(adj, es[m - 1], ext(es[m - 1]), pid)
  }

  lemma HitsStep(adj: Adjacency, e: seq<nat>, ds: seq<nat>, d: nat, pid: nat)
    ensures Hits(adj, e, ds + [d], pid) == Hits(adj, e, ds, pid) + Bit(PidOf(adj, e + [d]) == pid)
  {
    assert (ds + [d])[..|ds|] == ds;
  }

  lemma {:induction false} HitsConcat(adj: Adjacency, e: seq<nat>, ds: seq<nat>, ds': seq<nat>, pid: nat)
    ensures Hits(adj, e, ds + ds', pid) == Hits(adj, e, ds, pid) + Hits(adj, e, ds', pid)
  {
    if ds' == [] {
      assert ds + ds' == ds;
    } else {
      var front, d := ds'[..|ds'| - 1], ds'[|ds'| - 1];
      HitsConcat(adj, e, ds, front, pid);
      assert ds + ds' == ds + front + [d] && ds' == front + [d];
      HitsStep(adj, e, ds + front, d, pid);
      HitsStep(adj, e, front, d, pid);
    }
  }

  // ---------- Counters of several threads ----------

  ghost function Cell(counter: seq<nat>, pid: nat): nat {
    if pid < |counter| then counter[pid] else 0
  }

  /** Over all threads, what has been counted for pattern pid. */
  ghost function Total(counts: seq<seq<nat>>, pid: nat): nat {
    if counts == [] then 0
    else Total(counts[..|counts| - 1], pid) + Cell(counts[|counts| - 1], pid)
  }

  function Bumped(counter: seq<nat>, pid: nat): seq<nat>
    requires pid < |counter|
  {
    counter[pid := counter[pid] + 1]
  }

  lemma CellBumped(counter: seq<nat>, pid: nat, q: nat)
    requires pid < |counter|
    ensures |Bumped(counter, pid)| == |counter|
    ensures Cell(Bumped(counter, pid), q) == Cell(counter, q) + Bit(pid == q)
  {
  }

  /** One thread has counted k more. */
  lemma {:induction false} TotalUpdated(counts: seq<seq<nat>>, t: nat, counter: seq<nat>, q: nat, k: nat)
    requires t < |counts| && Cell(counter, q) == Cell(counts[t], q) + k
    ensures Total(counts[t := counter], q) == Total(counts, q) + k
  {
    var last := |counts| - 1;
    var updated := counts[t := counter];
    if t == last {
      assert updated[..last] == counts[..last];
    } else {
      TotalUpdated(counts[..last], t, counter, q, k);
      assert updated[..last] == counts[..last][t := counter];
    }
  }

  /** What thread t counts for pattern pid, when thread[pos] counts position pos. */
  ghost function HitsBy(adj: Adjacency, es: seq<seq<nat>>, ext: seq<nat> -> seq<nat>, threads: seq<nat>, t: nat,
                        pid: nat): nat
    requires |threads| <= |es|
  {
    if threads == [] then 0
    else
      var last := |threads| - 1;
      HitsBy(adj, es, ext, threads[..last], t, pid)
      + if threads[last] == t then Hits(adj, es[last], ext(es[last]), pid) else 0
  }

  // ---------- From hits to vertex sets ----------

  ghost function IsPid(adj: Adjacency, pid: nat): seq<nat> -> bool {
    x => PidOf(adj, x) == pid
  }

  /** The first embeddings of the next level, as far as the first m parents go. */
  ghost function NextUpTo(es: seq<seq<nat>>, ext: seq<nat> -> seq<nat>, m: nat): seq<seq<nat>>
    requires m <= |es|
  {
    PairsInRange(es, ext, m);
    var pairs := Pairs(es, ext, m);
    seq(|pairs|, t requires 0 <= t < |pairs| => es[pairs[t].0] + [pairs[t].1])
  }

  ghost function Extended(e: seq<nat>, ds: seq<nat>): seq<seq<nat>> {
    seq(|ds|, i requires 0 <= i < |ds| => e + [ds[i]])
  }

  lemma NextUpToStep(es: seq<seq<nat>>, ext: seq<nat> -> seq<nat>, m: nat)
    requires m < |es|
    ensures NextUpTo(es, ext, m + 1) == NextUpTo(es, ext, m) + Extended(es[m], ext(es[m]))
  {
    var pairs, added := Pairs(es, ext, m), Tagged(m, ext(es[m]));
    PairsInRange(es, ext, m);
    assert Pairs(es, ext, m + 1) == pairs + added;
  }

  lemma {:induction false} FilterConcat<A>(s: seq<A>, t: seq<A>, p: A -> bool)
    ensures Filter(s + t, p) == Filter(s, p) + Filter(t, p)
  {
    if t == [] {
      assert s + t == s;
    } else {
      var front := t[..|t| - 1];
      FilterConcat(s, front, p);
      assert (s + t)[..|s + t| - 1] == s + front;
    }
  }

  lemma {:induction false} HitsAreFiltered(adj: Adjacency, e: seq<nat>, ds: seq<nat>, pid: nat)
    ensures Hits(adj, e, ds, pid) == |Filter(Extended(e, ds), IsPid(adj, pid))|
  {
    if ds != [] {
      var front := ds[..|ds| - 1];
      HitsAreFiltered(adj, e, front, pid);
      assert Extended(e, ds)[..|ds| - 1] == Extended(e, front);
    }
  }

  lemma NothingFiltered(es: seq<seq<nat>>, ext: seq<nat> -> seq<nat>, p: seq<nat> -> bool)
    ensures Filter(NextUpTo(es, ext, 0), p) == []
  {
  }

  lemma {:induction false} AllHitsAreFiltered(adj: Adjacency, es: seq<seq<nat>>, ext: seq<nat> -> seq<nat>, m: nat,
                                              pid: nat)
    requires m <= |es|
    ensures HitsUpTo(adj, es, ext, m, pid) == |Filter(NextUpTo(es, ext, m), IsPid(adj, pid))|
  {
    hide Pid3, Pid4, PidOf, IsPid, Filter, Hits, Extended, NextUpTo, Tagged;
    if m > 0 {
      AllHitsAreFiltered(adj, es, ext, m - 1, pid);
      HitsAreFiltered(adj, es[m - 1], ext(es[m - 1]), pid);
      NextUpToStep(es, ext, m - 1);
      FilterConcat(NextUpTo(es, ext, m - 1), Extended(es[m - 1], ext(es[m - 1])), IsPid(adj, pid));
    } else {
      NothingFiltered(es, ext, IsPid(adj, pid));
    }
  }

  /** The sets of vertices inducing motif pid. */
  ghost function MotifSets(adj: Adjacency, pid: nat): set<set<nat>> {
    set s | s in Subsets(Below(|adj|)) && Induces(adj, s, pid)
  }

  lemma OneIsConnected(adj: Adjacency, a: nat)
    requires a < |adj|
    ensures Connected(adj, {a})
  {
    forall t: set<nat> | t < {a} ensures t == {} {
      assert a in t ==> t == {a};
    }
  }

  /** Each vertex is linked to an earlier one. */
  lemma FourAreConnected(adj: Adjacency, a: nat, b: nat, x: nat, c: nat, y: nat, d: nat)
    requires Undirected(adj) && a < |adj| && Adj(adj, a, b)
    requires x in {a, b} && Adj(adj, x, c) && y in {a, b, c} && Adj(adj, y, d)
    ensures Connected(adj, {a, b, c, d})
  {
    hide *;
    OneIsConnected(adj, a);
    ConnectedGrows(adj, {a}, a, b);
    assert {a} + {b} == {a, b};
    ConnectedGrows(adj, {a, b}, x, c);
    assert {a, b} + {c} == {a, b, c};
    ConnectedGrows(adj, {a, b, c}, y, d);
    assert {a, b, c} + {d} == {a, b, c, d};
  }

  lemma FourCard(a: nat, b: nat, c: nat, d: nat)
    requires Distinct(a, b, c, d)
    ensures |{a, b, c, d}| == 4
  {
    CountAmongFour({a, b, c, d}, a, b, c, d);
  }

  /** All six motifs are connected. */
  lemma MotifsAreConnected(adj: Adjacency, s: set<nat>, pid: nat)
    requires Undirected(adj) && s in MotifSets(adj, pid) && pid < 6
    ensures IsConnectedSet(adj, 4, s)
  {
    var a: nat, b: nat, c: nat, d: nat :| Distinct(a, b, c, d) && s == {a, b, c, d} && Drawn(adj, pid, a, b, c, d);
    hide Connected, Undirected;
    FourCard(a, b, c, d);
    FourAreConnected(adj, a, b, if pid in {0, 2} then b else a, c, if pid == 0 then c else a, d);
  }

  lemma PidInduces(adj: Adjacency, e: seq<nat>)
    requires Undirected(adj) && |e| == 4 && IsCanonical(adj, e)
    ensures PidOf(adj, e) < 6 && Induces(adj, Elements(e), PidOf(adj, e))
  {
    hide IsCanonical, CanonicalStep, Induces, Undirected, Pid3, Pid4;
    CanonicalSplits(adj, e);
    Pid4Induces(adj, e[..3], e[3]);
    assert e == e[..3] + [e[3]];
  }

  /** One pattern id fits a connected set. */
  lemma PidUnique(adj: Adjacency, s: set<nat>, p: nat, q: nat)
    requires Undirected(adj) && Connected(adj, s) && p < 6 && q < 6 && Induces(adj, s, p) && Induces(adj, s, q)
    ensures p == q
  {
    InducesByDegrees(adj, s, p);
    InducesByDegrees(adj, s, q);
  }

  lemma ConnectedInRange(adj: Adjacency, e: seq<nat>)
    requires Undirected(adj) && IsCanonical(adj, e)
    ensures Connected(adj, Elements(e)) && Elements(e) in Subsets(Below(|adj|))
  {
    hide IsCanonical, Undirected;
    CanonicalConnected(adj, e);
  }

  /** An accepted ordering of four vertices has the id of the motif they induce. */
  lemma FourShow(adj: Adjacency, e: seq<nat>, pid: nat)
    requires Undirected(adj) && |e| == 4 && IsCanonical(adj, e) && pid < 6
    ensures PidOf(adj, e) == pid <==> Elements(e) in MotifSets(adj, pid)
  {
    hide Induces, IsCanonical, PidOf, Undirected, Connected;
    ConnectedInRange(adj, e);
    PidInduces(adj, e);
    if Induces(adj, Elements(e), pid) {
      PidUnique(adj, Elements(e), pid, PidOf(adj, e));
    }
  }

  // ---------- Three vertices ----------

  /** The sets of three vertices joined pairwise. */
  ghost function Triangles(adj: Adjacency): set<set<nat>> {
    set s | s in Subsets(Below(|adj|)) && IsTriangle(adj, s)
  }

  /** The sets of three vertices with exactly two pairs joined. */
  ghost function Wedges(adj: Adjacency): set<set<nat>> {
    set s | s in Subsets(Below(|adj|)) && IsWedge(adj, s)
  }

  lemma ThreeCard(a: nat, b: nat, c: nat)
    requires a != b && a != c && b != c
    ensures |{a, b, c}| == 3
  {
    assert {a, b, c} - {a} == {b, c} && {b, c} - {b} == {c};
  }

  lemma ThreeAreConnected(adj: Adjacency, a: nat, b: nat, c: nat)
    requires Undirected(adj) && a < |adj| && Adj(adj, a, b) && Adj(adj, b, c)
    ensures Connected(adj, {a, b, c})
  {
    hide *;
    OneIsConnected(adj, a);
    ConnectedGrows(adj, {a}, a, b);
    assert {a} + {b} == {a, b};
    ConnectedGrows(adj, {a, b}, b, c);
    assert {a, b} + {c} == {a, b, c};
  }

  /** Triangles and wedges are connected. */
  lemma ThreesAreConnected(adj: Adjacency, s: set<nat>)
    requires Undirected(adj) && s in Triangles(adj) + Wedges(adj)
    ensures IsConnectedSet(adj, 3, s)
  {
    var a: nat, b: nat, c: nat :|
      a != b && a != c && b != c && s == {a, b, c} && Adj(adj, a, b) && Adj(adj, b, c);
    hide Connected, Undirected;
    ThreeCard(a, b, c);
    ThreeAreConnected(adj, a, b, c);
  }

  /** An accepted ordering of three vertices has id 0 if they are a triangle, 1 if they are a wedge. */
  lemma ThreeShow(adj: Adjacency, e: seq<nat>)
    requires Undirected(adj) && |e| == 3 && IsCanonical(adj, e)
    ensures PidOf(adj, e) == 0 <==> Elements(e) in Triangles(adj)
    ensures PidOf(adj, e) == 1 <==> Elements(e) in Wedges(adj)
  {
    hide IsTriangle, IsWedge, IsCanonical, Pid3, Undirected, Connected;
    ConnectedInRange(adj, e);
    Pid3Induces(adj, e);
  }

  // ---------- Counting the sets of one pattern ----------

  /** The accepted orderings of k vertices with id pid are those of the sets in `sets`, which are all connected. */
  ghost predicate Counts(adj: Adjacency, k: nat, pid: nat, sets: set<set<nat>>) {
    && (forall e: seq<nat> :: |e| == k && IsCanonical(adj, e) ==> (PidOf(adj, e) == pid <==> Elements(e) in sets))
    && forall s :: s in sets ==> IsConnectedSet(adj, k, s)
  }

  lemma FourCounts(adj: Adjacency, pid: nat)
    requires Undirected(adj) && pid < 6
    ensures Counts(adj, 4, pid, MotifSets(adj, pid))
  {
    hide IsCanonical, PidOf, Undirected, IsConnectedSet, MotifSets;
    forall e: seq<nat> | |e| == 4 && IsCanonical(adj, e)
      ensures PidOf(adj, e) == pid <==> Elements(e) in MotifSets(adj, pid)
    {
      FourShow(adj, e, pid);
    }
    forall s | s in MotifSets(adj, pid) ensures IsConnectedSet(adj, 4, s) {
      MotifsAreConnected(adj, s, pid);
    }
  }

  lemma ThreeCounts(adj: Adjacency)
    requires Undirected(adj)
    ensures Counts(adj, 3, 0, Triangles(adj)) && Counts(adj, 3, 1, Wedges(adj))
  {
    hide IsCanonical, PidOf, Undirected, IsConnectedSet, Triangles, Wedges;
    forall e: seq<nat> | |e| == 3 && IsCanonical(adj, e)
      ensures PidOf(adj, e) == 0 <==> Elements(e) in Triangles(adj)
      ensures PidOf(adj, e) == 1 <==> Elements(e) in Wedges(adj)
    {
      ThreeShow(adj, e);
    }
    forall s | s in Triangles(adj) + Wedges(adj) ensures IsConnectedSet(adj, 3, s) {
      ThreesAreConnected(adj, s);
    }
  }

  lemma FoundSound(adj: Adjacency, next: seq<seq<nat>>, k: nat, pid: nat, sets: set<set<nat>>, e: seq<nat>)
    requires ListsCanonical(adj, next, k) && Counts(adj, k, pid, sets)
    requires e in Elements(Filter(next, IsPid(adj, pid)))
    ensures IsCanonical(adj, e) && Elements(e) in sets
  {
    hide IsCanonical, PidOf, IsConnectedSet;
    var found := Filter(next, IsPid(adj, pid));
    FilterMembers(next, IsPid(adj, pid));
  }

  lemma FoundComplete(adj: Adjacency, next: seq<seq<nat>>, k: nat, pid: nat, sets: set<set<nat>>, s: set<nat>)
    returns (e: seq<nat>)
    requires Undirected(adj) && ListsCanonical(adj, next, k) && Counts(adj, k, pid, sets) && s in sets
    ensures e in Elements(Filter(next, IsPid(adj, pid))) && Elements(e) == s
  {
    hide IsCanonical, PidOf, Undirected, Connected;
    FilterMembers(next, IsPid(adj, pid));
    e := CanonicalExists(adj, s);
    CanonicalConnected(adj, e);
    assert e in next;
  }

  lemma FoundBijection(adj: Adjacency, next: seq<seq<nat>>, k: nat, pid: nat, sets: set<set<nat>>)
    requires Undirected(adj) && ListsCanonical(adj, next, k) && Counts(adj, k, pid, sets)
    ensures |Elements(Filter(next, IsPid(adj, pid)))| == |sets|
  {
    hide *;
    var found := Elements(Filter(next, IsPid(adj, pid)));
    var h := (e: seq<nat>) => Elements(e);
    forall e | e in found ensures h(e) in sets {
      FoundSound(adj, next, k, pid, sets, e);
    }
    forall e, e' | e in found && e' in found && h(e) == h(e') ensures e == e' {
      FoundSound(adj, next, k, pid, sets, e);
      FoundSound(adj, next, k, pid, sets, e');
      CanonicalUnique(adj, e, e');
    }
    forall s | s in sets ensures exists e :: e in found && h(e) == s {
      var e := FoundComplete(adj, next, k, pid, sets, s);
    }
    BijectionCard(found, sets, h);
  }

  lemma HitsAreSets(adj: Adjacency, rows: seq<seq<nat>>, es: seq<seq<nat>>, k: nat, pid: nat, sets: set<set<nat>>)
    requires Undirected(adj) && RowsOf(adj, rows) && ListsCanonical(adj, es, k) && k > 0
    requires Counts(adj, k + 1, pid, sets)
    ensures HitsUpTo(adj, es, MotifExt(adj, rows), |es|, pid) == |sets|
  {
    hide Counts, PidOf, IsCanonical, Undirected;
    var ext := MotifExt(adj, rows);
    var next := NextLevel(es, ext);
    NextIsCanonical(adj, rows, es, k);
    AllHitsAreFiltered(adj, es, ext, |es|, pid);
    assert NextUpTo(es, ext, |es|) == next;
    var found := Filter(next, IsPid(adj, pid));
    FilterNoDuplicates(next, IsPid(adj, pid));
    NoDuplicatesCard(found);
    FoundBijection(adj, next, k + 1, pid, sets);
  }

  /** Over all threads, each motif is counted once for every four-vertex set inducing it. */
  lemma HitsCountSets(adj: Adjacency, rows: seq<seq<nat>>, es: seq<seq<nat>>, pid: nat)
    requires Undirected(adj) && RowsOf(adj, rows) && ListsCanonical(adj, es, 3) && pid < 6
    ensures HitsUpTo(adj, es, MotifExt(adj, rows), |es|, pid) == |MotifSets(adj, pid)|
  {
    hide *;
    FourCounts(adj, pid);
    HitsAreSets(adj, rows, es, 3, pid, MotifSets(adj, pid));
  }

  /** From the edges, id 0 is counted once for every triangle and id 1 once for every wedge. */
  lemma HitsCountThrees(adj: Adjacency, rows: seq<seq<nat>>, es: seq<seq<nat>>)
    requires Undirected(adj) && RowsOf(adj, rows) && ListsCanonical(adj, es, 2)
    ensures HitsUpTo(adj, es, MotifExt(adj, rows), |es|, 0) == |Triangles(adj)|
    ensures HitsUpTo(adj, es, MotifExt(adj, rows), |es|, 1) == |Wedges(adj)|
  {
    hide *;
    ThreeCounts(adj);
    HitsAreSets(adj, rows, es, 2, 0, Triangles(adj));
    HitsAreSets(adj, rows, es, 2, 1, Wedges(adj));
  }
}
