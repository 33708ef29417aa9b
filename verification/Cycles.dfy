/** Simple cycles, and how many vertex sequences run round each. */
module Cycles {
  import opened Counting
  import opened CsrGraph
  import opened Paths

  /** A closed walk through distinct vertices: a path whose ends are adjacent. */
  ghost predicate IsCycle(adj: Adjacency, s: seq<nat>) {
    |s| > 0 && IsPath(adj, s) && Adj(adj, First(s), Last(s))
  }

  /** The sequences of k vertices that run round a cycle. */
  ghost function CycleSeqs(adj: Adjacency, k: nat): set<seq<nat>> {
    set s | s in PathsOf(adj, k) && IsCycle(adj, s)
  }

  function Next(i: nat, k: nat): nat {
    if i + 1 == k then 0 else i + 1
  }

  /** The edges of a cycle, each as the set of its two ends. */
  function EdgeAt(s: seq<nat>, i: nat): set<nat>
    requires i < |s|
  {
    {s[i], s[Next(i, |s|)]}
  }

  function EdgesOf(s: seq<nat>): set<set<nat>> {
    set i | 0 <= i < |s| :: EdgeAt(s, i)
  }

  /** The simple cycles on k vertices, as sets of edges. */
  ghost function CyclesOf(adj: Adjacency, k: nat): set<set<set<nat>>> {
    set s | s in CycleSeqs(adj, k) :: EdgesOf(s)
  }

  ghost predicate RoundTrip(adj: Adjacency, s: seq<nat>) {
    forall i :: 0 <= i < |s| ==> Adj(adj, s[i], s[Next(i, |s|)])
  }

  lemma CycleMember(adj: Adjacency, k: nat, s: seq<nat>)
    requires Symmetric(adj) && k >= 3
    ensures s in CycleSeqs(adj, k) <==>
            |s| == k && (forall i :: 0 <= i < k ==> s[i] < |adj|) && NoDuplicates(s) && RoundTrip(adj, s)
  {
    PathsMember(adj, k, s);
    if |s| == k && NoDuplicates(s) {
      if s in CycleSeqs(adj, k) {
        forall i | 0 <= i < k ensures Adj(adj, s[i], s[Next(i, k)]) {
          if i < k - 1 {
            assert Adj(adj, s[i], s[i + 1]);
          }
        }
      }
      if RoundTrip(adj, s) {
        forall i | 0 <= i < k - 1 ensures Adj(adj, s[i], s[i + 1]) {
          assert Adj(adj, s[i], s[Next(i, k)]);
        }
        assert Adj(adj, s[k - 1], s[Next(k - 1, k)]);
      }
    }
  }

  // ---------- Rotations ----------

  function Rotated(s: seq<nat>, i: nat): seq<nat> {
    if i <= |s| then s[i..] + s[..i] else s
  }

  function Shift(k: nat, i: nat, j: nat): nat {
    if i + j < k then i + j else if i + j - k < k then i + j - k else 0
  }

  lemma RotatedAt(s: seq<nat>, i: nat)
    requires i < |s|
    ensures |Rotated(s, i)| == |s| && forall j :: 0 <= j < |s| ==> Rotated(s, i)[j] == s[Shift(|s|, i, j)]
  {
  }

  lemma RotatedCycle(adj: Adjacency, k: nat, s: seq<nat>, i: nat)
    requires Symmetric(adj) && k >= 3 && s in CycleSeqs(adj, k) && i < k
    ensures Rotated(s, i) in CycleSeqs(adj, k)
  {
    hide CycleSeqs, Rotated, Symmetric;
    var r := Rotated(s, i);
    CycleMember(adj, k, s);
    RotatedAt(s, i);
    CycleMember(adj, k, r);
    forall j | 0 <= j < k ensures Adj(adj, r[j], r[Next(j, k)]) {
      var a := Shift(k, i, j);
      assert Adj(adj, s[a], s[Next(a, k)]);
      assert Shift(k, i, Next(j, k)) == Next(a, k);
    }
    forall a, b | 0 <= a < b < k ensures r[a] != r[b] {
      assert Shift(k, i, a) != Shift(k, i, b);
    }
  }

  lemma RotatedBack(s: seq<nat>, i: nat)
    requires i < |s|
    ensures Rotated(Rotated(s, i), if i == 0 then 0 else |s| - i) == s
  {
    if i > 0 {
      var r, k := s[i..] + s[..i], |s|;
      assert r[k - i..] == s[..i] && r[..k - i] == s[i..];
      assert s == s[..i] + s[i..];
    }
  }

  /** The index of the smallest vertex. */
  function ArgMin(s: seq<nat>): (m: nat)
    requires |s| > 0
    ensures m < |s| && forall i :: 0 <= i < |s| ==> s[m] <= s[i]
  {
    if |s| == 1 then 0 else
      var m := ArgMin(s[..|s| - 1]);
      if s[|s| - 1] < s[m] then |s| - 1 else m
  }

  ghost predicate MinFirst(s: seq<nat>) {
    forall i :: 0 <= i < |s| ==> s[0] <= s[i]
  }

  /** The rotation that starts at the smallest vertex. */
  function Normal(s: seq<nat>): seq<nat> {
    if s == [] then s else Rotated(s, ArgMin(s))
  }

  ghost function NormalSeqs(adj: Adjacency, k: nat): set<seq<nat>> {
    set s | s in CycleSeqs(adj, k) && MinFirst(s)
  }

  lemma NormalIsNormal(adj: Adjacency, k: nat, s: seq<nat>)
    requires Symmetric(adj) && k >= 3 && s in CycleSeqs(adj, k)
    ensures Normal(s) in NormalSeqs(adj, k)
  {
    CycleMember(adj, k, s);
    RotatedCycle(adj, k, s, ArgMin(s));
    RotatedAt(s, ArgMin(s));
    assert Normal(s)[0] == s[ArgMin(s)];
  }

  lemma NormalMember(adj: Adjacency, k: nat, t: seq<nat>)
    requires Symmetric(adj) && k >= 3 && t in NormalSeqs(adj, k)
    ensures |t| == k && NoDuplicates(t) && forall i :: 0 <= i < k ==> t[0] <= t[i]
  {
    CycleMember(adj, k, t);
  }

  lemma ShiftBack(k: nat, i: nat, m: nat)
    requires i < k && m < k
    ensures Shift(k, i, m) < k && (Shift(k, i, m) == 0 <==> m == if i == 0 then 0 else k - i)
  {
  }

  lemma SameVertex(t: seq<nat>, a: nat, b: nat)
    requires NoDuplicates(t) && a < |t| && b < |t| && t[a] == t[b]
    ensures a == b
  {
  }

  lemma NormalRotates(s: seq<nat>)
    requires |s| > 0
    ensures Normal(s) == Rotated(s, ArgMin(s))
  {
  }

  lemma NormalOfRotated(adj: Adjacency, k: nat, t: seq<nat>, i: nat)
    requires Symmetric(adj) && k >= 3 && t in NormalSeqs(adj, k) && i < k
    ensures Normal(Rotated(t, i)) == t && |t| == k
  {
    hide *;
    NormalMember(adj, k, t);
    var r := Rotated(t, i);
    RotatedAt(t, i);
    RotatedBack(t, i);
    var z := if i == 0 then 0 else k - i;
    ShiftBack(k, i, z);
    var m := ArgMin(r);
    var a := Shift(k, i, m);
    ShiftBack(k, i, m);
    assert r[m] == t[a] && r[z] == t[0];
    SameVertex(t, a, 0);
    NormalRotates(r);
  }

  ghost function RotatedBy(t: seq<nat>): nat -> seq<nat> {
    (i: nat) => Rotated(t, i)
  }

  lemma RotatedByIs(t: seq<nat>, i: nat, k: nat)
    ensures RotatedBy(t)(i) == Rotated(t, i) && (i in Below(k) <==> i < k)
  {
  }

  lemma RotatedStart(t: seq<nat>, i: nat)
    requires i < |t|
    ensures |Rotated(t, i)| > 0 && Rotated(t, i)[0] == t[i]
  {
  }

  lemma FibreMember(ss: set<seq<nat>>, t: seq<nat>, s: seq<nat>)
    ensures s in Fibre(ss, Normal, t) <==> s in ss && Normal(s) == t
  {
    hide Normal;
  }

  lemma CycleLength(adj: Adjacency, k: nat, s: seq<nat>)
    requires s in CycleSeqs(adj, k)
    ensures |s| == k
  {
    PathsMember(adj, k, s);
  }

  /** A cycle has k starting points. */
  lemma NormalFibre(adj: Adjacency, k: nat, t: seq<nat>)
    requires Symmetric(adj) && k >= 3 && t in NormalSeqs(adj, k)
    ensures |Fibre(CycleSeqs(adj, k), Normal, t)| == k
  {
    hide *;
    var fibre := Fibre(CycleSeqs(adj, k), Normal, t);
    NormalMember(adj, k, t);
    BelowCard(k);
    forall i | i in Below(k) ensures i < k && RotatedBy(t)(i) == Rotated(t, i) && RotatedBy(t)(i) in fibre {
      RotatedByIs(t, i, k);
      NormalIs(adj, k, t);
      RotatedCycle(adj, k, t, i);
      NormalOfRotated(adj, k, t, i);
      FibreMember(CycleSeqs(adj, k), t, Rotated(t, i));
    }
    forall i, i' | i in Below(k) && i' in Below(k) && RotatedBy(t)(i) == RotatedBy(t)(i') ensures i == i' {
      RotatedStart(t, i);
      RotatedStart(t, i');
      SameVertex(t, i, i');
    }
    forall s | s in fibre ensures exists i :: i in Below(k) && RotatedBy(t)(i) == s {
      FibreMember(CycleSeqs(adj, k), t, s);
      CycleLength(adj, k, s);
      var m := ArgMin(s);
      NormalRotates(s);
      RotatedBack(s, m);
      var i := if m == 0 then 0 else k - m;
      RotatedByIs(t, i, k);
      assert RotatedBy(t)(i) == s;
    }
    BijectionCard(Below(k), fibre, RotatedBy(t));
  }

  // ---------- The two directions ----------

  /** The same cycle the other way round, from the same start. */
  function Turned(s: seq<nat>): seq<nat> {
    seq(|s|, i requires 0 <= i < |s| => if i == 0 then s[0] else s[|s| - i])
  }

  lemma TurnedTwice(s: seq<nat>)
    ensures Turned(Turned(s)) == s
  {
  }

  ghost predicate Forward(s: seq<nat>) {
    |s| >= 3 && s[1] < s[|s| - 1]
  }

  /** One sequence for each cycle: smallest vertex first, its smaller neighbour next. */
  ghost function Canonicals(adj: Adjacency, k: nat): set<seq<nat>> {
    set s | s in NormalSeqs(adj, k) && Forward(s)
  }

  lemma TurnedAt(s: seq<nat>)
    ensures |Turned(s)| == |s|
    ensures forall i :: 0 <= i < |s| ==> Turned(s)[i] == if i == 0 then s[0] else s[|s| - i]
  {
  }

  lemma NormalIs(adj: Adjacency, k: nat, t: seq<nat>)
    ensures t in NormalSeqs(adj, k) <==> t in CycleSeqs(adj, k) && MinFirst(t)
  {
  }

  lemma TurnedSeq(adj: Adjacency, k: nat, s: seq<nat>)
    requires Symmetric(adj) && k >= 3 && s in CycleSeqs(adj, k)
    ensures Turned(s) in CycleSeqs(adj, k)
  {
    hide CycleSeqs, NormalSeqs, Turned;
    var r := Turned(s);
    CycleMember(adj, k, s);
    CycleMember(adj, k, r);
    TurnedAt(s);
    forall j | 0 <= j < k ensures Adj(adj, r[j], r[Next(j, k)]) {
      var a := k - 1 - j;
      assert r[Next(j, k)] == s[a];
      assert r[j] == s[Next(a, k)];
      assert Adj(adj, s[a], s[Next(a, k)]);
    }
    forall i, j | 0 <= i < j < k ensures r[i] != r[j] {
      var a, b := if i == 0 then 0 else k - i, k - j;
      assert r[i] == s[a] && r[j] == s[b] && a != b;
      if a < b {
        assert s[a] != s[b];
      } else {
        assert s[b] != s[a];
      }
    }
  }

  lemma TurnedCycle(adj: Adjacency, k: nat, s: seq<nat>)
    requires Symmetric(adj) && k >= 3 && s in NormalSeqs(adj, k)
    ensures Turned(s) in NormalSeqs(adj, k) && (Forward(Turned(s)) <==> !Forward(s))
  {
    hide CycleSeqs, NormalSeqs, Turned;
    NormalIs(adj, k, s);
    NormalIs(adj, k, Turned(s));
    CycleMember(adj, k, s);
    TurnedSeq(adj, k, s);
    TurnedAt(s);
    assert s[1] != s[k - 1];
  }

  lemma NormalsAreTwice(adj: Adjacency, k: nat)
    requires Symmetric(adj) && k >= 3
    ensures |NormalSeqs(adj, k)| == 2 * |Canonicals(adj, k)|
  {
    hide *;
    var all, some := NormalSeqs(adj, k), Canonicals(adj, k);
    forall s ensures s in some <==> s in all && Forward(s) {
      CanonicalIs(adj, k, s);
    }
    forall s | s in some ensures Turned(s) in all - some {
      TurnedCycle(adj, k, s);
    }
    forall s, s' | s in some && s' in some && Turned(s) == Turned(s') ensures s == s' {
      TurnedTwice(s);
      TurnedTwice(s');
    }
    forall s | s in all - some ensures exists s' :: s' in some && Turned(s') == s {
      TurnedCycle(adj, k, s);
      TurnedTwice(s);
    }
    BijectionCard(some, all - some, Turned);
    assert all == some + (all - some);
  }

  // ---------- A cycle is its set of edges ----------

  lemma EdgeMember(s: seq<nat>, e: set<nat>)
    ensures e in EdgesOf(s) <==> exists i :: 0 <= i < |s| && EdgeAt(s, i) == e
  {
  }

  lemma EdgesInclude(s: seq<nat>, i: nat)
    requires i < |s|
    ensures EdgeAt(s, i) in EdgesOf(s)
  {
  }

  lemma NextShifted(k: nat, i: nat, j: nat)
    requires i < k && j < k
    ensures Shift(k, i, j) < k && Next(j, k) < k && Shift(k, i, Next(j, k)) == Next(Shift(k, i, j), k)
  {
  }

  lemma RotatedInclude(s: seq<nat>, i: nat)
    requires i < |s|
    ensures EdgesOf(Rotated(s, i)) <= EdgesOf(s)
  {
    hide EdgesOf, Rotated;
    var r, k := Rotated(s, i), |s|;
    RotatedAt(s, i);
    forall e | e in EdgesOf(r) ensures e in EdgesOf(s) {
      EdgeMember(r, e);
      var j :| 0 <= j < k && EdgeAt(r, j) == e;
      NextShifted(k, i, j);
      EdgesInclude(s, Shift(k, i, j));
    }
  }

  lemma RotatedEdges(s: seq<nat>, i: nat)
    requires i < |s|
    ensures EdgesOf(Rotated(s, i)) == EdgesOf(s)
  {
    hide *;
    RotatedAt(s, i);
    RotatedInclude(s, i);
    RotatedInclude(Rotated(s, i), if i == 0 then 0 else |s| - i);
    RotatedBack(s, i);
  }

  lemma TurnedEdges(s: seq<nat>)
    requires |s| > 0
    ensures EdgesOf(Turned(s)) == EdgesOf(s)
  {
    hide EdgesOf;
    var r, k := Turned(s), |s|;
    forall j | 0 <= j < k ensures EdgeAt(r, j) == EdgeAt(s, k - 1 - j) {
    }
    forall e ensures e in EdgesOf(r) <==> e in EdgesOf(s) {
      EdgeMember(r, e);
      EdgeMember(s, e);
      if e in EdgesOf(r) {
        var j :| 0 <= j < k && EdgeAt(r, j) == e;
        EdgesInclude(s, k - 1 - j);
      }
      if e in EdgesOf(s) {
        var a :| 0 <= a < k && EdgeAt(s, a) == e;
        assert EdgeAt(r, k - 1 - a) == e;
        EdgesInclude(r, k - 1 - a);
      }
    }
  }

  /** The edges at s[i] lead to the vertices before and after it. */
  lemma Incident(s: seq<nat>, i: nat, y: nat)
    requires NoDuplicates(s) && i < |s| && {s[i], y} in EdgesOf(s) && y != s[i]
    ensures y == s[Next(i, |s|)] || y == s[if i == 0 then |s| - 1 else i - 1]
  {
    hide EdgesOf;
    EdgeMember(s, {s[i], y});
    var j :| 0 <= j < |s| && EdgeAt(s, j) == {s[i], y};
    assert s[i] in EdgeAt(s, j) && y in EdgeAt(s, j);
    assert i == j || i == Next(j, |s|);
    if i != j {
      assert y == s[j];
    }
  }

  /** The cycles with the same edges have the same vertices. */
  lemma EdgesGiveVertices(s: seq<nat>, t: seq<nat>)
    requires EdgesOf(s) == EdgesOf(t)
    ensures forall x :: x in s ==> x in t
  {
    hide EdgesOf;
    forall x | x in s ensures x in t {
      var i :| 0 <= i < |s| && s[i] == x;
      EdgesInclude(s, i);
      EdgeMember(t, EdgeAt(s, i));
      var j :| 0 <= j < |t| && EdgeAt(t, j) == EdgeAt(s, i);
      assert x in EdgeAt(t, j);
    }
  }

  ghost predicate IsCanonical(s: seq<nat>) {
    NoDuplicates(s) && MinFirst(s) && Forward(s)
  }

  lemma CanonicalParts(s: seq<nat>)
    requires IsCanonical(s)
    ensures |s| >= 3 && NoDuplicates(s) && s[1] < s[|s| - 1] && forall x :: x in s ==> s[0] <= x
  {
  }

  lemma SeqsDiffer(t: seq<nat>, a: nat, b: nat)
    requires NoDuplicates(t) && a < b < |t|
    ensures t[a] != t[b]
  {
  }

  /** The vertex after t[i] is one of the two next to s[i]. */
  lemma Follows(s: seq<nat>, t: seq<nat>, i: nat)
    requires NoDuplicates(s) && NoDuplicates(t) && i + 1 < |s| == |t| && s[i] == t[i] && EdgesOf(s) == EdgesOf(t)
    ensures t[i + 1] == s[i + 1] || t[i + 1] == s[if i == 0 then |s| - 1 else i - 1]
  {
    hide EdgesOf;
    EdgesInclude(t, i);
    assert EdgeAt(t, i) == {s[i], t[i + 1]};
    Incident(s, i, t[i + 1]);
  }

  /** The last vertex of t is one of the two next to s[0]. */
  lemma Precedes(s: seq<nat>, t: seq<nat>)
    requires NoDuplicates(s) && NoDuplicates(t) && 3 <= |s| == |t| && s[0] == t[0] && EdgesOf(s) == EdgesOf(t)
    ensures t[|t| - 1] == s[1] || t[|t| - 1] == s[|s| - 1]
  {
    hide EdgesOf;
    EdgesInclude(t, |t| - 1);
    assert EdgeAt(t, |t| - 1) == {s[0], t[|t| - 1]};
    Incident(s, 0, t[|t| - 1]);
  }

  lemma {:induction false} SamePrefix(s: seq<nat>, t: seq<nat>, j: nat)
    requires IsCanonical(s) && IsCanonical(t) && |s| == |t| && EdgesOf(s) == EdgesOf(t)
    requires j < |s|
    ensures s[..j + 1] == t[..j + 1]
  {
    hide *;
    CanonicalParts(s);
    CanonicalParts(t);
    if j == 0 {
      EdgesGiveVertices(s, t);
      EdgesGiveVertices(t, s);
      assert s[0] in t && t[0] in s;
      assert s[..1] == [s[0]] && t[..1] == [t[0]];
    } else {
      SamePrefix(s, t, j - 1);
      assert s[j - 1] == s[..j][j - 1] == t[..j][j - 1] == t[j - 1];
      Follows(s, t, j - 1);
      if j == 1 {
        Follows(t, s, 0);
        Precedes(s, t);
        Precedes(t, s);
      } else {
        assert s[j - 2] == s[..j][j - 2] == t[..j][j - 2] == t[j - 2];
        SeqsDiffer(t, j - 2, j);
      }
      assert s[..j + 1] == s[..j] + [s[j]] && t[..j + 1] == t[..j] + [t[j]];
    }
  }

  lemma CanonicalMember(adj: Adjacency, k: nat, s: seq<nat>)
    requires Symmetric(adj) && k >= 3
    ensures s in Canonicals(adj, k) <==> s in CycleSeqs(adj, k) && IsCanonical(s)
    ensures s in CycleSeqs(adj, k) ==> |s| == k
  {
    CycleMember(adj, k, s);
  }

  lemma CanonicalIs(adj: Adjacency, k: nat, t: seq<nat>)
    ensures t in Canonicals(adj, k) <==> t in NormalSeqs(adj, k) && Forward(t)
  {
  }

  lemma CanonicalOf(adj: Adjacency, k: nat, s: seq<nat>) returns (t: seq<nat>)
    requires Symmetric(adj) && k >= 3 && s in CycleSeqs(adj, k)
    ensures t in Canonicals(adj, k) && EdgesOf(t) == EdgesOf(s)
  {
    hide *;
    CycleLength(adj, k, s);
    NormalIsNormal(adj, k, s);
    NormalRotates(s);
    RotatedEdges(s, ArgMin(s));
    t := Normal(s);
    NormalMember(adj, k, t);
    TurnedCycle(adj, k, t);
    TurnedEdges(t);
    if !Forward(t) {
      t := Turned(t);
    }
    CanonicalIs(adj, k, t);
  }

  lemma CyclesMember(adj: Adjacency, k: nat, c: set<set<nat>>)
    ensures c in CyclesOf(adj, k) <==> exists s :: s in CycleSeqs(adj, k) && EdgesOf(s) == c
  {
  }

  lemma CanonicalsAreCycles(adj: Adjacency, k: nat)
    requires Symmetric(adj) && k >= 3
    ensures |Canonicals(adj, k)| == |CyclesOf(adj, k)|
  {
    hide *;
    forall s | s in Canonicals(adj, k) ensures EdgesOf(s) in CyclesOf(adj, k) {
      CanonicalMember(adj, k, s);
      CyclesMember(adj, k, EdgesOf(s));
    }
    forall s, t | s in Canonicals(adj, k) && t in Canonicals(adj, k) && EdgesOf(s) == EdgesOf(t) ensures s == t {
      CanonicalMember(adj, k, s);
      CanonicalMember(adj, k, t);
      SamePrefix(s, t, k - 1);
      assert s[..k] == s && t[..k] == t;
    }
    forall c | c in CyclesOf(adj, k) ensures exists s :: s in Canonicals(adj, k) && EdgesOf(s) == c {
      CyclesMember(adj, k, c);
      var s :| s in CycleSeqs(adj, k) && EdgesOf(s) == c;
      var t := CanonicalOf(adj, k, s);
    }
    BijectionCard(Canonicals(adj, k), CyclesOf(adj, k), EdgesOf);
  }

  lemma TwiceTimes(k: nat, n: nat)
    ensures k * (2 * n) == 2 * k * n
  {
  }

  /** Every simple cycle on k vertices is 2k sequences: k starts, two directions. */
  lemma SequencesPerCycle(adj: Adjacency, k: nat)
    requires Symmetric(adj) && k >= 3
    ensures |CycleSeqs(adj, k)| == 2 * k * |CyclesOf(adj, k)|
  {
    hide *;
    forall s | s in CycleSeqs(adj, k) ensures Normal(s) in NormalSeqs(adj, k) {
      NormalIsNormal(adj, k, s);
    }
    forall t | t in NormalSeqs(adj, k) ensures |Fibre(CycleSeqs(adj, k), Normal, t)| == k {
      NormalFibre(adj, k, t);
    }
    FibreCard(CycleSeqs(adj, k), NormalSeqs(adj, k), Normal, k);
    NormalsAreTwice(adj, k);
    CanonicalsAreCycles(adj, k);
    TwiceTimes(k, |CyclesOf(adj, k)|);
  }
}
