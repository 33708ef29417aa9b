/** Randomised procedures as trees of draws, and the exact mean of their results. */
module Draws {
  import opened Counting

  /** What a procedure returns, or one uniform draw with a branch for each outcome. */
  datatype Draw = Return(value: real) | Uniform(branches: seq<Draw>)

  ghost function MeanSum(ts: seq<Draw>): real {
    if ts == [] then 0.0 else MeanSum(ts[..|ts| - 1]) + Mean(ts[|ts| - 1])
  }

  /** The exact average over all outcomes of all draws. */
  ghost function Mean(t: Draw): real {
    match t
    case Return(value) => value
    case Uniform(branches) =>
      if branches == [] then 0.0 else MeanSum(branches) / (|branches| as real)
  }

  /** One draw: an outcome, and the number of outcomes it was drawn from. */
  datatype Outcome = Outcome(range: nat, value: nat)

  /** The draws lead from t to the subtree t', each of them over all the branches there. */
  ghost predicate Reaches(t: Draw, draws: seq<Outcome>, t': Draw) {
    if draws == [] then t == t'
    else
      && t.Uniform? && draws[0].range == |t.branches| && draws[0].value < |t.branches|
      && Reaches(t.branches[draws[0].value], draws[1..], t')
  }

  /** draws is a complete run of t, with result r. */
  ghost predicate Runs(t: Draw, draws: seq<Outcome>, r: real) {
    Reaches(t, draws, Return(r))
  }

  lemma RunDone(t: Draw, draws: seq<Outcome>, r: real)
    ensures Reaches(t, draws, Return(r)) <==> Runs(t, draws, r)
  {
  }

  lemma {:induction false} ReachesBranch(t: Draw, draws: seq<Outcome>, branches: seq<Draw>, c: nat)
    requires Reaches(t, draws, Uniform(branches)) && c < |branches|
    ensures Reaches(t, draws + [Outcome(|branches|, c)], branches[c])
  {
    var o := Outcome(|branches|, c);
    if draws == [] {
      assert [o][1..] == [];
    } else {
      ReachesBranch(t.branches[draws[0].value], draws[1..], branches, c);
      assert (draws + [o])[1..] == draws[1..] + [o];
    }
  }

  /** A source of uniform draws that remembers what was asked of it and what it gave out. */
  class Engine {
    ghost var drawn: seq<Outcome>

    constructor ()
      ensures drawn == []
    {
      drawn := [];
    }

    /** Any outcome in [0, n). */
    method Next(n: nat) returns (r: nat)
      requires n > 0
      modifies this
      ensures r < n && drawn == old(drawn) + [Outcome(n, r)]
    {
      r :| 0 <= r < n;
      drawn := drawn + [Outcome(n, r)];
    }
  }

  // ---------- Sums over lists ----------

  /** The sum of f over a list. */
  ghost function ListSum<A(!new)>(s: seq<A>, f: A -> int): int {
    if s == [] then 0 else ListSum(s[..|s| - 1], f) + f(s[|s| - 1])
  }

  lemma {:induction false} ListSumIsSum<A(!new)>(s: seq<A>, f: A -> int)
    requires NoDuplicates(s)
    ensures ListSum(s, f) == Sum(Elements(s), f)
  {
    if s != [] {
      var front, last := s[..|s| - 1], s[|s| - 1];
      ListSumIsSum(front, f);
      assert Elements(s) - {last} == Elements(front);
      SumRemove(Elements(s), f, last);
    }
  }

  function Weigh(w: real, k: int): real {
    w * (k as real)
  }

  lemma UnitWeight(n: int)
    ensures Weigh(1.0, n) == n as real
  {
  }

  lemma WeighNothing(w: real)
    ensures Weigh(w, 0) == 0.0
  {
  }

  lemma WeighAdds(w: real, a: int, b: int)
    ensures Weigh(w, a + b) == Weigh(w, a) + Weigh(w, b)
  {
    assert (a + b) as real == a as real + b as real;
  }

  /** If branch i has mean w * f(s[i]), the means add up to w times the sum of f. */
  lemma {:induction false} WeightedMeanSum<A(!new)>(ts: seq<Draw>, s: seq<A>, f: A -> int, w: real)
    requires |ts| == |s| && forall i :: 0 <= i < |s| ==> Mean(ts[i]) == Weigh(w, f(s[i]))
    ensures MeanSum(ts) == Weigh(w, ListSum(s, f))
  {
    hide Weigh, Mean;
    if s == [] {
      WeighNothing(w);
    } else {
      var m := |s| - 1;
      WeightedMeanSum(ts[..m], s[..m], f, w);
      WeighAdds(w, ListSum(s[..m], f), f(s[m]));
    }
  }

  /** The weight p * n of a draw over n branches cancels its probability. */
  lemma WeighCancels(p: real, n: int, k: int)
    requires n != 0
    ensures Weigh(Weigh(p, n), k) / (n as real) == Weigh(p, k)
  {
    var x, y := n as real, k as real;
    assert (p * x) * y == (p * y) * x;
  }

  /** A draw whose branches carry the weight p * |s| has mean p times the sum of f. */
  lemma UniformMean<A(!new)>(ts: seq<Draw>, s: seq<A>, f: A -> int, p: real)
    requires |ts| == |s| > 0 && forall i :: 0 <= i < |s| ==> Mean(ts[i]) == Weigh(Weigh(p, |s|), f(s[i]))
    ensures Mean(Uniform(ts)) == Weigh(p, ListSum(s, f))
  {
    hide Weigh;
    WeightedMeanSum(ts, s, f, Weigh(p, |s|));
    WeighCancels(p, |s|, ListSum(s, f));
  }
}
