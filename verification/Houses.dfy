/** Houses: cycles of five vertices with one chord. */
module Houses {
  import opened Counting
  import opened CsrGraph
  import opened Paths
  import opened Cycles

  ghost predicate OnCycle(c: set<set<nat>>, a: nat) {
    exists d :: d in c && a in d
  }

  /** e joins two vertices of the cycle and is not one of its edges. */
  ghost predicate IsChord(adj: Adjacency, c: set<set<nat>>, e: set<nat>) {
    e !in c && exists a: nat, b: nat :: e == {a, b} && a != b && Adj(adj, a, b) && OnCycle(c, a) && OnCycle(c, b)
  }

  /** A house is a cycle of five vertices, as a set of edges, and one of its chords. */
  ghost function HousesOf(adj: Adjacency): set<(set<set<nat>>, set<nat>)> {
    set c, e | c in CyclesOf(adj, 5) && e in Subsets(Below(|adj|)) && IsChord(adj, c, e) :: (c, e)
  }

  /** The sequences that run round a cycle so that the first vertex and the third are joined. */
  ghost function Chorded(adj: Adjacency): set<seq<nat>> {
    set s | s in CycleSeqs(adj, 5) && |s| == 5 && Adj(adj, s[0], s[2])
  }

  /** The same house, from the other end of the chord. */
  function Flipped(s: seq<nat>): seq<nat> {
    if |s| == 5 then [s[2], s[1], s[0], s[4], s[3]] else s
  }

  /** One sequence for each house: the chord from its smaller end. */
  ghost function ChordedUp(adj: Adjacency): set<seq<nat>> {
    set s | s in Chorded(adj) && |s| == 5 && s[0] < s[2]
  }

  lemma ChordedMember(adj: Adjacency, s: seq<nat>)
    requires Symmetric(adj)
    ensures s in Chorded(adj) <==> s in CycleSeqs(adj, 5) && |s| == 5 && Adj(adj, s[0], s[2])
    ensures s in ChordedUp(adj) <==> s in Chorded(adj) && |s| == 5 && s[0] < s[2]
    ensures s in CycleSeqs(adj, 5) ==> |s| == 5 && NoDuplicates(s) && forall i :: 0 <= i < 5 ==> s[i] < |adj|
  {
    CycleMember(adj, 5, s);
  }

  lemma FlippedIs(s: seq<nat>)
    requires |s| == 5
    ensures Flipped(s) == Turned(Rotated(s, 2)) && |Flipped(s)| == 5 && Flipped(Flipped(s)) == s
    ensures Flipped(s)[0] == s[2] && Flipped(s)[2] == s[0]
  {
  }

  lemma FlippedHouse(adj: Adjacency, s: seq<nat>)
    requires Symmetric(adj) && s in Chorded(adj)
    ensures Flipped(s) in Chorded(adj) && Flipped(Flipped(s)) == s && EdgesOf(Flipped(s)) == EdgesOf(s)
    ensures Flipped(s) in ChordedUp(adj) <==> s !in ChordedUp(adj)
  {
    hide *;
    ChordedMember(adj, s);
    ChordedMember(adj, Flipped(s));
    FlippedIs(s);
    RotatedAt(s, 2);
    RotatedCycle(adj, 5, s, 2);
    TurnedSeq(adj, 5, Rotated(s, 2));
    RotatedEdges(s, 2);
    TurnedEdges(Rotated(s, 2));
    BothWays(adj, s[0], s[2]);
    SeqsDiffer(s, 0, 2);
  }

  /** The edges of the cycle and the ordered chord determine the sequence. */
  lemma SameHouse(s: seq<nat>, t: seq<nat>)
    requires NoDuplicates(s) && NoDuplicates(t) && |s| == |t| == 5 && EdgesOf(s) == EdgesOf(t)
    requires s[0] == t[0] && s[2] == t[2]
    ensures s == t
  {
    hide EdgesOf;
    Follows(s, t, 0);
    EdgesInclude(t, 1);
    assert EdgeAt(t, 1) == {s[2], t[1]};
    Incident(s, 2, t[1]);
    assert t[1] == s[1];
    Follows(s, t, 2);
    assert t[3] == s[3];
    Follows(s, t, 3);
    assert t[4] == s[4];
  }

  ghost function HouseOf(s: seq<nat>): (set<set<nat>>, set<nat>) {
    (EdgesOf(s), if |s| == 5 then {s[0], s[2]} else {})
  }

  lemma HouseMember(adj: Adjacency, c: set<set<nat>>, e: set<nat>)
    ensures (c, e) in HousesOf(adj) <==> c in CyclesOf(adj, 5) && e <= Below(|adj|) && IsChord(adj, c, e)
  {
  }

  lemma ChordWith(adj: Adjacency, c: set<set<nat>>, e: set<nat>, a: nat, b: nat)
    requires e == {a, b} && e !in c && a != b && Adj(adj, a, b) && OnCycle(c, a) && OnCycle(c, b)
    ensures IsChord(adj, c, e)
  {
  }

  lemma OnCycleWith(c: set<set<nat>>, d: set<nat>, a: nat)
    requires d in c && a in d
    ensures OnCycle(c, a)
  {
  }

  lemma HouseIs(s: seq<nat>)
    requires |s| == 5
    ensures HouseOf(s) == (EdgesOf(s), {s[0], s[2]})
  {
  }

  lemma PairBelow(a: nat, b: nat, n: nat)
    requires a < n && b < n
    ensures {a, b} <= Below(n)
  {
  }

  lemma InEdge(s: seq<nat>, i: nat)
    requires i < |s|
    ensures s[i] in EdgeAt(s, i)
  {
  }

  lemma NotAnEdge(s: seq<nat>)
    requires |s| == 5 && NoDuplicates(s)
    ensures {s[0], s[2]} !in EdgesOf(s)
  {
    hide EdgesOf;
    if {s[0], s[2]} in EdgesOf(s) {
      Incident(s, 0, s[2]);
    }
  }

  lemma FoundHouse(adj: Adjacency, s: seq<nat>)
    requires Symmetric(adj) && s in Chorded(adj)
    ensures HouseOf(s) in HousesOf(adj)
  {
    hide *;
    ChordedMember(adj, s);
    var c, e := EdgesOf(s), {s[0], s[2]};
    HouseIs(s);
    CyclesMember(adj, 5, c);
    HouseMember(adj, c, e);
    PairBelow(s[0], s[2], |adj|);
    SeqsDiffer(s, 0, 2);
    NotAnEdge(s);
    EdgesInclude(s, 0);
    EdgesInclude(s, 2);
    InEdge(s, 0);
    InEdge(s, 2);
    OnCycleWith(c, EdgeAt(s, 0), s[0]);
    OnCycleWith(c, EdgeAt(s, 2), s[2]);
    ChordWith(adj, c, e, s[0], s[2]);
  }

  /** A vertex of the cycle can be made the first. */
  lemma StartAt(adj: Adjacency, t: seq<nat>, a: nat) returns (r: seq<nat>)
    requires Symmetric(adj) && t in CycleSeqs(adj, 5) && OnCycle(EdgesOf(t), a)
    ensures r in CycleSeqs(adj, 5) && EdgesOf(r) == EdgesOf(t) && |r| == 5 && r[0] == a
  {
    hide CycleSeqs, EdgesOf, Rotated;
    CycleLength(adj, 5, t);
    var d :| d in EdgesOf(t) && a in d;
    EdgeMember(t, d);
    var j :| 0 <= j < 5 && EdgeAt(t, j) == d;
    var i := if t[j] == a then j else Next(j, 5);
    r := Rotated(t, i);
    RotatedStart(t, i);
    RotatedCycle(adj, 5, t, i);
    RotatedEdges(t, i);
    CycleLength(adj, 5, r);
  }

  lemma VertexOf(t: seq<nat>, a: nat) returns (m: nat)
    requires OnCycle(EdgesOf(t), a)
    ensures m < |t| && t[m] == a
  {
    hide EdgesOf;
    var d :| d in EdgesOf(t) && a in d;
    EdgeMember(t, d);
    var j :| 0 <= j < |t| && EdgeAt(t, j) == d;
    m := if t[j] == a then j else Next(j, |t|);
  }

  /** The two ends of a chord are two steps apart, one way or the other. */
  lemma ChordApart(adj: Adjacency, t: seq<nat>, a: nat, b: nat) returns (s: seq<nat>)
    requires Symmetric(adj) && t in CycleSeqs(adj, 5) && a != b && {a, b} !in EdgesOf(t)
    requires OnCycle(EdgesOf(t), a) && OnCycle(EdgesOf(t), b)
    ensures s in CycleSeqs(adj, 5) && EdgesOf(s) == EdgesOf(t) && |s| == 5 && s[0] == a && s[2] == b
  {
    hide CycleSeqs, EdgesOf, OnCycle;
    var r := StartAt(adj, t, a);
    var m := VertexOf(r, b);
    EdgesInclude(r, 0);
    EdgesInclude(r, 4);
    assert EdgeAt(r, 0) == {a, r[1]} && EdgeAt(r, 4) == {a, r[4]};
    assert m == 2 || m == 3;
    s := r;
    if m == 3 {
      s := Turned(r);
      TurnedSeq(adj, 5, r);
      TurnedAt(r);
      TurnedEdges(r);
    }
  }

  lemma ChordEnds(adj: Adjacency, c: set<set<nat>>, e: set<nat>) returns (a: nat, b: nat)
    requires IsChord(adj, c, e)
    ensures e !in c && e == {a, b} && a != b && Adj(adj, a, b) && OnCycle(c, a) && OnCycle(c, b)
  {
    hide OnCycle, Adj;
    a, b :| e == {a, b} && a != b && Adj(adj, a, b) && OnCycle(c, a) && OnCycle(c, b);
  }

  lemma SequenceOfHouse(adj: Adjacency, c: set<set<nat>>, e: set<nat>) returns (s: seq<nat>)
    requires Symmetric(adj) && (c, e) in HousesOf(adj)
    ensures s in ChordedUp(adj) && HouseOf(s) == (c, e)
  {
    hide *;
    HouseMember(adj, c, e);
    CyclesMember(adj, 5, c);
    var t :| t in CycleSeqs(adj, 5) && EdgesOf(t) == c;
    var a, b := ChordEnds(adj, c, e);
    s := ChordApart(adj, t, a, b);
    ChordedMember(adj, s);
    HouseIs(s);
    if s !in ChordedUp(adj) {
      FlippedHouse(adj, s);
      FlippedIs(s);
      s := Flipped(s);
      HouseIs(s);
      assert {b, a} == {a, b};
    }
  }

  lemma SamePair(a: nat, b: nat, x: nat, y: nat)
    requires {a, b} == {x, y} && a < b && x < y
    ensures a == x && b == y
  {
    assert a in {x, y} && b in {x, y};
  }

  lemma HousesAreSequences(adj: Adjacency)
    requires Symmetric(adj)
    ensures |ChordedUp(adj)| == |HousesOf(adj)|
  {
    hide *;
    forall s | s in ChordedUp(adj) ensures HouseOf(s) in HousesOf(adj) {
      ChordedMember(adj, s);
      FoundHouse(adj, s);
    }
    forall s, t | s in ChordedUp(adj) && t in ChordedUp(adj) && HouseOf(s) == HouseOf(t) ensures s == t {
      ChordedMember(adj, s);
      ChordedMember(adj, t);
      HouseIs(s);
      HouseIs(t);
      SamePair(s[0], s[2], t[0], t[2]);
      SameHouse(s, t);
    }
    forall h | h in HousesOf(adj) ensures exists s :: s in ChordedUp(adj) && HouseOf(s) == h {
      assert h == (h.0, h.1);
      var s := SequenceOfHouse(adj, h.0, h.1);
    }
    BijectionCard(ChordedUp(adj), HousesOf(adj), HouseOf);
  }

  /** Each house is two such sequences. */
  lemma ChordedTwice(adj: Adjacency)
    requires Symmetric(adj)
    ensures |Chorded(adj)| == 2 * |HousesOf(adj)|
  {
    hide *;
    forall s | s in Chorded(adj)
      ensures Flipped(s) in Chorded(adj) && Flipped(Flipped(s)) == s
      ensures Flipped(s) in ChordedUp(adj) <==> s !in ChordedUp(adj)
    {
      FlippedHouse(adj, s);
    }
    forall s | s in ChordedUp(adj) ensures s in Chorded(adj) {
      ChordedMember(adj, s);
    }
    Halves(Chorded(adj), ChordedUp(adj), Flipped);
    HousesAreSequences(adj);
  }

  // ---------- Growing a closed path of three ----------

  /** One for a path of three whose ends are joined. */
  ghost function Roof(adj: Adjacency): seq<nat> -> int {
    q => if |q| == 3 && Adj(adj, q[0], q[2]) then 1 else 0
  }

  /** One for a cycle sequence with a chord from its first vertex to its third. */
  ghost function Chord(adj: Adjacency): seq<nat> -> int {
    s => if |s| == 5 && Adj(adj, s[0], s[2]) then 1 else 0
  }

  ghost function ChordFrom(adj: Adjacency, i: nat): seq<nat> -> int {
    s => Chord(adj)(Rotated(s, i))
  }

  /** The path of three may be at the front, in the middle (reached in two ways) or at the back. */
  lemma RoofPassedOn(adj: Adjacency, s: seq<nat>)
    requires |s| == 5
    ensures PassedOn(Roof(adj), 2)(s) == Chord(adj)(s) + 2 * ChordFrom(adj, 1)(s) + ChordFrom(adj, 2)(s)
  {
    hide Adj;
    var g := Roof(adj);
    PassedNext(g, 2);
    PassedNext(Passed(g), 1);
    PassedStart(Passed(Passed(g)));
    var back, front := s[1..], s[..4];
    assert Passed(Passed(g))(s) == Passed(g)(back) + Passed(g)(front);
    assert Passed(g)(back) == g(back[1..]) + g(back[..3]);
    assert Passed(g)(front) == g(front[1..]) + g(front[..3]);
    RotatedAt(s, 1);
    RotatedAt(s, 2);
  }

  ghost function RotatedIn(i: nat): seq<nat> -> seq<nat> {
    s => Rotated(s, i)
  }

  lemma ChordFromIs(adj: Adjacency, i: nat, s: seq<nat>)
    ensures RotatedIn(i)(s) == Rotated(s, i) && ChordFrom(adj, i)(s) == Chord(adj)(Rotated(s, i))
  {
  }

  lemma TurnBack(adj: Adjacency, s: seq<nat>, i: nat, back: nat)
    requires Symmetric(adj) && s in CycleSeqs(adj, 5) && i < 5 && back == if i == 0 then 0 else 5 - i
    ensures RotatedIn(i)(s) == Rotated(s, i) && Rotated(s, i) in CycleSeqs(adj, 5)
    ensures Rotated(Rotated(s, i), back) == s && ChordFrom(adj, i)(s) == Chord(adj)(Rotated(s, i))
  {
    hide *;
    CycleLength(adj, 5, s);
    RotatedCycle(adj, 5, s, i);
    RotatedBack(s, i);
    ChordFromIs(adj, i, s);
  }

  /** The sequences with a chord from place i, two places on. */
  ghost function ChordedFrom(adj: Adjacency, i: nat): set<seq<nat>> {
    set s | s in CycleSeqs(adj, 5) && Rotated(s, i) in Chorded(adj)
  }

  lemma ChordedFromMember(adj: Adjacency, i: nat, s: seq<nat>)
    ensures s in ChordedFrom(adj, i) <==> s in CycleSeqs(adj, 5) && Rotated(s, i) in Chorded(adj)
  {
  }

  /** Turning every sequence by i does not change the number of chords. */
  lemma ChordsFrom(adj: Adjacency, i: nat)
    requires Symmetric(adj) && i < 5
    ensures |ChordedFrom(adj, i)| == |Chorded(adj)|
  {
    hide *;
    var h, back := RotatedIn(i), if i == 0 then 0 else 5 - i;
    forall s | s in ChordedFrom(adj, i) ensures h(s) in Chorded(adj) && Rotated(h(s), back) == s {
      ChordedFromMember(adj, i, s);
      TurnBack(adj, s, i, back);
    }
    forall s, t | s in ChordedFrom(adj, i) && t in ChordedFrom(adj, i) && h(s) == h(t) ensures s == t {
      assert Rotated(h(s), back) == s && Rotated(h(t), back) == t;
    }
    forall t | t in Chorded(adj) ensures exists s :: s in ChordedFrom(adj, i) && h(s) == t {
      ChordedMember(adj, t);
      TurnBack(adj, t, back, i);
      var s := Rotated(t, back);
      ChordFromIs(adj, i, s);
      ChordedFromMember(adj, i, s);
    }
    BijectionCard(ChordedFrom(adj, i), Chorded(adj), h);
  }

  lemma ChordSumFrom(adj: Adjacency, i: nat)
    requires Symmetric(adj) && i < 5
    ensures Sum(CycleSeqs(adj, 5), ChordFrom(adj, i)) == |Chorded(adj)|
  {
    hide *;
    var some := ChordedFrom(adj, i);
    forall s | s in CycleSeqs(adj, 5) ensures ChordFrom(adj, i)(s) == if s in some then 1 else 0 {
      ChordedFromMember(adj, i, s);
      TurnBack(adj, s, i, if i == 0 then 0 else 5 - i);
      ChordedMember(adj, Rotated(s, i));
      ChordIs(adj, Rotated(s, i));
    }
    forall s | s in some ensures s in CycleSeqs(adj, 5) {
      ChordedFromMember(adj, i, s);
    }
    SumOverPart(CycleSeqs(adj, 5), some, ChordFrom(adj, i));
    SumConstant(some, ChordFrom(adj, i), 1);
    ChordsFrom(adj, i);
  }
  lemma ChordIs(adj: Adjacency, s: seq<nat>)
    requires |s| == 5
    ensures Chord(adj)(s) == if Adj(adj, s[0], s[2]) then 1 else 0
  {
  }

  lemma ChordsAre(adj: Adjacency)
    requires Symmetric(adj)
    ensures Sum(CycleSeqs(adj, 5), Chord(adj)) == |Chorded(adj)|
  {
    hide *;
    forall s | s in CycleSeqs(adj, 5) ensures Chord(adj)(s) == if s in Chorded(adj) then 1 else 0 {
      ChordedMember(adj, s);
      ChordIs(adj, s);
    }
    forall s | s in Chorded(adj) ensures s in CycleSeqs(adj, 5) {
      ChordedMember(adj, s);
    }
    SumOverPart(CycleSeqs(adj, 5), Chorded(adj), Chord(adj));
    SumConstant(Chorded(adj), Chord(adj), 1);
  }

  /** One for a path of five whose ends are joined. */
  ghost function Wall(adj: Adjacency): seq<nat> -> int {
    p => if |p| == 5 && Adj(adj, p[0], p[4]) then 1 else 0
  }

  ghost function TwiceFrom(adj: Adjacency, i: nat): seq<nat> -> int {
    s => 2 * ChordFrom(adj, i)(s)
  }

  ghost function ChordSum(adj: Adjacency): seq<nat> -> int {
    s => Chord(adj)(s) + TwiceFrom(adj, 1)(s)
  }

  lemma ChordSumIs(adj: Adjacency, s: seq<nat>)
    ensures TwiceFrom(adj, 1)(s) == 2 * ChordFrom(adj, 1)(s)
    ensures ChordSum(adj)(s) == Chord(adj)(s) + TwiceFrom(adj, 1)(s)
  {
  }

  lemma WallIs(adj: Adjacency, p: seq<nat>, g: seq<nat> -> int)
    ensures p in CycleSeqs(adj, 5) ==> p in PathsOf(adj, 5)
    ensures p in PathsOf(adj, 5) ==> Product(g, Wall(adj))(p) == if p in CycleSeqs(adj, 5) then g(p) else 0
  {
    PathsMember(adj, 5, p);
  }

  /** Growing every closed path of three twice, up to a closed path of five: eight times for each house. */
  lemma GrownHouses(adj: Adjacency)
    requires Symmetric(adj)
    ensures Sum(PathsOf(adj, 3), Product(Roof(adj), WaysFor(adj, 2, Wall(adj)))) == 8 * |HousesOf(adj)|
  {
    hide *;
    var g, w, seqs, all := PassedOn(Roof(adj), 2), Wall(adj), CycleSeqs(adj, 5), PathsOf(adj, 5);
    GrowWeighted(adj, 3, 2, Roof(adj), w);
    forall p | p in all ensures Product(g, w)(p) == if p in seqs then g(p) else 0 {
      WallIs(adj, p, g);
    }
    forall p | p in seqs ensures p in all {
      WallIs(adj, p, g);
    }
    SumOverPart(all, seqs, Product(g, w));
    SumCongruence(seqs, Product(g, w), g);
    var middle := TwiceFrom(adj, 1);
    forall s | s in seqs ensures g(s) == ChordSum(adj)(s) + ChordFrom(adj, 2)(s) {
      CycleLength(adj, 5, s);
      RoofPassedOn(adj, s);
      ChordSumIs(adj, s);
    }
    SumAdd(seqs, ChordSum(adj), ChordFrom(adj, 2), g);
    forall s | s in seqs
      ensures ChordSum(adj)(s) == Chord(adj)(s) + middle(s) && middle(s) == 2 * ChordFrom(adj, 1)(s)
    {
      ChordSumIs(adj, s);
    }
    SumAdd(seqs, Chord(adj), middle, ChordSum(adj));
    SumScale(seqs, ChordFrom(adj, 1), 2, middle);
    ChordSumFrom(adj, 1);
    ChordSumFrom(adj, 2);
    ChordsAre(adj);
    ChordedTwice(adj);
  }
}
