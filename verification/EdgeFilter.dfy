/** Rebuilding a graph from a condition on its edges: count, scan, fill, as in
    orientation and colour sparsification (sansa/src/common/graph.cc:340-406, 633-679),
    and the single pass that shifts the row pointers in place (438-459). */
module EdgeFilter {
  import opened Counting
  import opened CsrGraph
  import opened Scan

  ghost function KeepAt(keep: (nat, nat) -> bool, v: nat): nat -> bool {
    (u: nat) => keep(v, u)
  }

  /** h is g with every neighbour list filtered, order kept. */
  ghost predicate IsFiltered(g: Csr, keep: (nat, nat) -> bool, h: Csr)
    requires g.WellFormed()
  {
    && h.WellFormed() && h.V() == g.V()
    && forall v :: 0 <= v < g.V() ==> h.N(v) == Filter(g.N(v), KeepAt(keep, v))
  }

  /** A well-formed graph is determined by its neighbour lists. */
  lemma {:induction false} SameListsSamePrefix(g: Csr, h: Csr, m: nat)
    requires g.WellFormed() && h.WellFormed() && g.V() == h.V() && m <= g.V()
    requires forall v :: 0 <= v < g.V() ==> g.N(v) == h.N(v)
    ensures forall v :: 0 <= v <= m ==> g.vertices[v] == h.vertices[v]
    ensures g.edges[..g.vertices[m]] == h.edges[..h.vertices[m]]
  {
    if m > 0 {
      SameListsSamePrefix(g, h, m - 1);
      assert g.N(m - 1) == h.N(m - 1);
      assert |g.N(m - 1)| == g.vertices[m] - g.vertices[m - 1];
      assert |h.N(m - 1)| == h.vertices[m] - h.vertices[m - 1];
      assert g.edges[..g.vertices[m]] == g.edges[..g.vertices[m - 1]] + g.N(m - 1);
      assert h.edges[..h.vertices[m]] == h.edges[..h.vertices[m - 1]] + h.N(m - 1);
    }
  }

  /** Filtering has one result, whatever way it is computed. */
  lemma FilteredUnique(g: Csr, keep: (nat, nat) -> bool, a: Csr, b: Csr)
    requires g.WellFormed() && IsFiltered(g, keep, a) && IsFiltered(g, keep, b)
    ensures a == b
  {
    SameListsSamePrefix(a, b, a.V());
    assert a.edges == a.edges[..|a.edges|] && b.edges == b.edges[..|b.edges|];
  }

  /** A filtered simple graph is simple. */
  lemma FilteredSimple(g: Csr, keep: (nat, nat) -> bool, h: Csr)
    requires g.Simple() && IsFiltered(g, keep, h)
    ensures h.Simple()
    ensures forall v, u: nat :: 0 <= v < g.V() ==> (u in h.N(v) <==> u in g.N(v) && keep(v, u))
  {
    forall v | 0 <= v < g.V()
      ensures StrictlyIncreasing(h.N(v)) && forall u: nat :: u in h.N(v) <==> u in g.N(v) && keep(v, u)
    {
      FilterIncreasing(g.N(v), KeepAt(keep, v));
      FilterMembers(g.N(v), KeepAt(keep, v));
    }
  }

  /** The lengths of the filtered lists. */
  ghost predicate FilteredDegrees(g: Csr, keep: (nat, nat) -> bool, degrees: seq<nat>, m: nat)
    requires g.WellFormed() && m <= g.V()
  {
    |degrees| == m && forall v :: 0 <= v < m ==> degrees[v] == |Filter(g.N(v), KeepAt(keep, v))|
  }

  method CountKept(row: seq<nat>, keep: (nat, nat) -> bool, v: nat) returns (n: nat)
    ensures n == |Filter(row, KeepAt(keep, v))|
  {
    ghost var p := KeepAt(keep, v);
    n := 0;
    FilterNone(row, p);
    for e := 0 to |row|
      invariant n == |Filter(row[..e], p)|
    {
      FilterStep(row, p, e);
      if keep(v, row[e]) {
        n := n + 1;
      }
    }
    assert row[..|row|] == row;
  }

  method CountDegrees(g: Csr, keep: (nat, nat) -> bool) returns (degrees: seq<nat>)
    requires g.WellFormed()
    ensures FilteredDegrees(g, keep, degrees, g.V())
  {
    degrees := [];
    for v := 0 to g.V()
      invariant FilteredDegrees(g, keep, degrees, v)
    {
      var n := CountKept(g.N(v), keep, v);
      degrees := degrees + [n];
    }
  }

  /** One filtered list goes to its place; nothing else changes. */
  method FillRow(row: seq<nat>, keep: (nat, nat) -> bool, v: nat, out: array<nat>, begin: nat)
    requires begin + |Filter(row, KeepAt(keep, v))| <= out.Length
    modifies out
    ensures out[begin..begin + |Filter(row, KeepAt(keep, v))|] == Filter(row, KeepAt(keep, v))
    ensures forall i :: 0 <= i < out.Length && !(begin <= i < begin + |Filter(row, KeepAt(keep, v))|) ==>
              out[i] == old(out[i])
  {
    hide Filter;
    ghost var p := KeepAt(keep, v);
    var offset: nat := 0;
    FilterNone(row, p);
    for e := 0 to |row|
      invariant offset == |Filter(row[..e], p)| && begin + offset <= out.Length
      invariant out[begin..begin + offset] == Filter(row[..e], p)
      invariant forall i :: 0 <= i < out.Length && !(begin <= i < begin + offset) ==> out[i] == old(out[i])
    {
      FilterStep(row, p, e);
      FilterPrefix(row, p, e + 1);
      if keep(v, row[e]) {
        ghost var before := out[begin..begin + offset];
        out[begin + offset] := row[e];
        offset := offset + 1;
        assert out[begin..begin + offset] == before + [row[e]];
      }
    }
    assert row[..|row|] == row;
  }

  // ---------- Filling lists at scanned offsets ----------

  /** Each list starts where the one before it ends. */
  ghost predicate Offsets(lists: seq<seq<nat>>, starts: seq<nat>) {
    && |starts| == |lists| + 1 && starts[0] == 0
    && forall v :: 0 <= v < |lists| ==> starts[v] + |lists[v]| == starts[v + 1]
  }

  lemma {:induction false} OffsetsOrdered(lists: seq<seq<nat>>, starts: seq<nat>, v: nat, w: nat)
    requires Offsets(lists, starts) && v <= w <= |lists|
    ensures starts[v] <= starts[w]
    decreases w
  {
    if v < w {
      OffsetsOrdered(lists, starts, v, w - 1);
      assert starts[w - 1] + |lists[w - 1]| == starts[w - 1 + 1];
    }
  }

  ghost predicate HoldsList(list: seq<nat>, start: nat, out: seq<nat>) {
    start + |list| <= |out| && out[start..start + |list|] == list
  }

  ghost predicate ListsFilled(lists: seq<seq<nat>>, starts: seq<nat>, out: seq<nat>, m: nat) {
    && m <= |lists| && |starts| == |lists| + 1
    && forall v :: 0 <= v < m ==> HoldsList(lists[v], starts[v], out)
  }

  lemma OneMoreList(lists: seq<seq<nat>>, starts: seq<nat>, before: seq<nat>, after: seq<nat>, v: nat)
    requires Offsets(lists, starts) && v < |lists| && |after| == |before|
    requires ListsFilled(lists, starts, before, v) && HoldsList(lists[v], starts[v], after)
    requires forall i :: 0 <= i < starts[v] && i < |before| ==> after[i] == before[i]
    ensures ListsFilled(lists, starts, after, v + 1)
  {
    forall w | 0 <= w < v ensures HoldsList(lists[w], starts[w], after) {
      assert HoldsList(lists[w], starts[w], before);
      OffsetsOrdered(lists, starts, w + 1, v);
      assert starts[w] + |lists[w]| == starts[w + 1];
    }
  }

  ghost function FilteredLists(g: Csr, keep: (nat, nat) -> bool): seq<seq<nat>>
    requires g.WellFormed()
  {
    seq(g.V(), v requires 0 <= v < g.V() => Filter(g.N(v), KeepAt(keep, v)))
  }

  lemma ScannedOffsets(g: Csr, keep: (nat, nat) -> bool, degrees: seq<nat>, starts: seq<nat>)
    requires g.WellFormed() && FilteredDegrees(g, keep, degrees, g.V()) && IsPrefixSum(degrees, starts)
    ensures Offsets(FilteredLists(g, keep), starts) && |FilteredLists(g, keep)| == g.V()
  {
    var lists := FilteredLists(g, keep);
    forall v | 0 <= v < |lists| ensures starts[v] + |lists[v]| == starts[v + 1] {
      assert SumRange(degrees, 0, v + 1) == SumRange(degrees, 0, v) + degrees[v];
    }
  }

  /** Lists filled in at their offsets are the neighbour lists. */
  lemma ListsAreRows(lists: seq<seq<nat>>, h: Csr)
    requires Offsets(lists, h.vertices) && ListsFilled(lists, h.vertices, h.edges, |lists|)
    requires |h.edges| == h.vertices[|lists|]
    ensures h.WellFormed() && h.V() == |lists| && forall v :: 0 <= v < |lists| ==> h.N(v) == lists[v]
  {
    forall i, j | 0 <= i <= j < |h.vertices| ensures h.vertices[i] <= h.vertices[j] {
      OffsetsOrdered(lists, h.vertices, i, j);
    }
    assert h.WellFormed();
    forall v | 0 <= v < |lists| ensures h.N(v) == lists[v] {
      assert HoldsList(lists[v], h.vertices[v], h.edges);
      assert h.vertices[v] + |lists[v]| == h.vertices[v + 1];
    }
  }

  lemma FilledIsFiltered(g: Csr, keep: (nat, nat) -> bool, h: Csr)
    requires g.WellFormed() && Offsets(FilteredLists(g, keep), h.vertices)
    requires ListsFilled(FilteredLists(g, keep), h.vertices, h.edges, g.V()) && |h.edges| == h.vertices[g.V()]
    ensures IsFiltered(g, keep, h)
  {
    ListsAreRows(FilteredLists(g, keep), h);
  }

  lemma ListFits(g: Csr, keep: (nat, nat) -> bool, starts: seq<nat>, v: nat)
    requires g.WellFormed() && v < g.V() && Offsets(FilteredLists(g, keep), starts)
    ensures |starts| == g.V() + 1
    ensures v + 1 < |g.vertices| && g.vertices[v] <= g.vertices[v + 1] <= |g.edges|
    ensures FilteredLists(g, keep)[v] == Filter(g.N(v), KeepAt(keep, v))
    ensures starts[v] + |FilteredLists(g, keep)[v]| <= starts[g.V()]
  {
    OffsetsOrdered(FilteredLists(g, keep), starts, v + 1, g.V());
    assert starts[v] + |FilteredLists(g, keep)[v]| == starts[v + 1];
  }

  lemma PutList(list: seq<nat>, start: nat, out: seq<nat>)
    requires start + |list| <= |out| && out[start..start + |list|] == list
    ensures HoldsList(list, start, out)
  {
  }

  lemma NoLists(lists: seq<seq<nat>>, starts: seq<nat>, out: seq<nat>)
    requires Offsets(lists, starts)
    ensures ListsFilled(lists, starts, out, 0)
  {
  }

  /** The second pass. */
  method FillRows(g: Csr, keep: (nat, nat) -> bool, starts: seq<nat>, out: array<nat>)
    requires g.WellFormed() && Offsets(FilteredLists(g, keep), starts) && |FilteredLists(g, keep)| == g.V()
    requires out.Length == starts[g.V()]
    modifies out
    ensures ListsFilled(FilteredLists(g, keep), starts, out[..], g.V())
  {
    hide *;
    ghost var lists := FilteredLists(g, keep);
    NoLists(lists, starts, out[..]);
    var n := |g.vertices| - 1;
    VertexCount(g);
    for v := 0 to n
      invariant ListsFilled(lists, starts, out[..], v)
    {
      ListFits(g, keep, starts, v);
      ghost var before := out[..];
      FillRow(g.N(v), keep, v, out, starts[v]);
      assert out[..][starts[v]..starts[v] + |lists[v]|] == out[starts[v]..starts[v] + |lists[v]|];
      PutList(lists[v], starts[v], out[..]);
      OneMoreList(lists, starts, before, out[..], v);
    }
  }

  lemma OffsetsSize(lists: seq<seq<nat>>, starts: seq<nat>)
    requires Offsets(lists, starts)
    ensures |starts| == |lists| + 1
  {
  }

  /** Count, scan, fill. The blocked scan is used with any block size. */
  method FilterEdges(g: Csr, keep: (nat, nat) -> bool, blockSize: nat) returns (h: Csr, degrees: seq<nat>)
    requires g.WellFormed() && blockSize > 0
    ensures IsFiltered(g, keep, h) && FilteredDegrees(g, keep, degrees, g.V())
  {
    hide Offsets, FilteredLists, ListsFilled, FilteredDegrees, IsPrefixSum;
    degrees := CountDegrees(g, keep);
    var starts := ParallelPrefixSum(degrees, blockSize);
    ScannedOffsets(g, keep, degrees, starts);
    OffsetsSize(FilteredLists(g, keep), starts);
    var out := new nat[starts[g.V()]];
    FillRows(g, keep, starts, out);
    h := Csr(starts, out[..]);
    FilledIsFiltered(g, keep, h);
  }

  // ---------- One pass over the row pointers ----------

  /** Where list v starts when the lists are laid end to end. */
  ghost function Start(lists: seq<seq<nat>>, v: nat): nat {
    if v == 0 || v > |lists| then 0 else Start(lists, v - 1) + |lists[v - 1]|
  }

  lemma {:induction false} FilterShorter<A>(s: seq<A>, p: A -> bool)
    ensures |Filter(s, p)| <= |s|
  {
    if s != [] {
      FilterShorter(s[..|s| - 1], p);
    }
  }

  lemma {:induction false} StartBelow(g: Csr, keep: (nat, nat) -> bool, v: nat)
    requires g.WellFormed() && v <= g.V()
    ensures Start(FilteredLists(g, keep), v) <= g.vertices[v]
  {
    if v > 0 {
      StartBelow(g, keep, v - 1);
      FilterPrefix(g.N(v - 1), KeepAt(keep, v - 1), |g.N(v - 1)|);
      FilterShorter(g.N(v - 1), KeepAt(keep, v - 1));
    }
  }

  lemma StartsAreOffsets(lists: seq<seq<nat>>, starts: seq<nat>)
    requires |starts| == |lists| + 1 && forall v :: 0 <= v <= |lists| ==> starts[v] == Start(lists, v)
    ensures Offsets(lists, starts)
  {
    forall v | 0 <= v < |lists| ensures starts[v] + |lists[v]| == starts[v + 1] {
      assert starts[v + 1] == Start(lists, v + 1);
    }
  }

  /** The kept edges of one row, appended at count; the others are counted as removed. */
  method KeepRow(row: seq<nat>, keep: (nat, nat) -> bool, v: nat, out: array<nat>, count: nat, removed: nat)
    returns (count': nat, removed': nat)
    requires count + |Filter(row, KeepAt(keep, v))| <= out.Length
    modifies out
    ensures count' == count + |Filter(row, KeepAt(keep, v))| <= out.Length
    ensures removed' + |Filter(row, KeepAt(keep, v))| == removed + |row|
    ensures out[..count'] == old(out[..count]) + Filter(row, KeepAt(keep, v))
  {
    ghost var p := KeepAt(keep, v);
    count', removed' := count, removed;
    FilterNone(row, p);
    for e := 0 to |row|
      invariant count' == count + |Filter(row[..e], p)| <= out.Length
      invariant removed' + |Filter(row[..e], p)| == removed + e
      invariant out[..count'] == old(out[..count]) + Filter(row[..e], p)
    {
      FilterStep(row, p, e);
      FilterPrefix(row, p, e + 1);
      if !keep(v, row[e]) {
        removed' := removed' + 1;
      } else {
        ghost var before := out[..count'];
        out[count'] := row[e];
        count' := count' + 1;
        assert out[..count'] == before + [row[e]];
      }
    }
    assert row[..|row|] == row;
  }

  /** The lists before v, laid end to end. */
  ghost function Joined(lists: seq<seq<nat>>, v: nat): seq<nat> {
    if v == 0 || v > |lists| then [] else Joined(lists, v - 1) + lists[v - 1]
  }

  lemma {:induction false} JoinedLength(lists: seq<seq<nat>>, v: nat)
    requires v <= |lists|
    ensures |Joined(lists, v)| == Start(lists, v)
  {
    if v > 0 {
      JoinedLength(lists, v - 1);
    }
  }

  lemma HoldsAppended(list: seq<nat>, start: nat, before: seq<nat>, list': seq<nat>)
    ensures HoldsList(list, start, before) ==> HoldsList(list, start, before + list')
    ensures HoldsList(list', |before|, before + list')
  {
    if HoldsList(list, start, before) {
      assert (before + list')[start..start + |list|] == before[start..start + |list|];
    }
  }

  lemma AppendList(lists: seq<seq<nat>>, starts: seq<nat>, before: seq<nat>, v: nat)
    requires v < |lists| && ListsFilled(lists, starts, before, v) && |before| == starts[v]
    ensures ListsFilled(lists, starts, before + lists[v], v + 1)
  {
    hide HoldsList;
    forall w | 0 <= w < v + 1 ensures HoldsList(lists[w], starts[w], before + lists[v]) {
      HoldsAppended(lists[w], starts[w], before, lists[v]);
    }
  }

  lemma JoinedStep(lists: seq<seq<nat>>, starts: seq<nat>, v: nat)
    requires v <= |lists| && |starts| == |lists| + 1
    ensures v > 0 ==> Joined(lists, v) == Joined(lists, v - 1) + lists[v - 1]
    ensures v == 0 ==> ListsFilled(lists, starts, Joined(lists, 0), 0)
  {
  }

  lemma {:induction false} JoinedHolds(lists: seq<seq<nat>>, starts: seq<nat>, v: nat)
    requires v <= |lists| && |starts| == |lists| + 1
    requires forall w :: 0 <= w <= |lists| ==> starts[w] == Start(lists, w)
    ensures ListsFilled(lists, starts, Joined(lists, v), v)
  {
    hide *;
    JoinedStep(lists, starts, v);
    if v > 0 {
      JoinedHolds(lists, starts, v - 1);
      JoinedLength(lists, v - 1);
      AppendList(lists, starts, Joined(lists, v - 1), v - 1);
    }
  }

  /** Lists laid end to end at their starts are the filtered graph. */
  lemma JoinedIsFiltered(g: Csr, keep: (nat, nat) -> bool, h: Csr)
    requires g.WellFormed() && |h.vertices| == g.V() + 1
    requires forall v :: 0 <= v <= g.V() ==> h.vertices[v] == Start(FilteredLists(g, keep), v)
    requires h.edges == Joined(FilteredLists(g, keep), g.V())
    ensures IsFiltered(g, keep, h)
  {
    var lists := FilteredLists(g, keep);
    StartsAreOffsets(lists, h.vertices);
    JoinedHolds(lists, h.vertices, g.V());
    JoinedLength(lists, g.V());
    FilledIsFiltered(g, keep, h);
  }
}
