/** One level of the exploration as a function of the level before, for any way
    of extending a single embedding. */
module Exploration {
  import opened Counting
  import opened Embeddings

  ghost function Tagged(p: nat, ds: seq<nat>): seq<(nat, nat)> {
    seq(|ds|, i requires 0 <= i < |ds| => (p, ds[i]))
  }

  /** (position of the parent, new vertex) for the first m embeddings, in order. */
  ghost function Pairs(es: seq<seq<nat>>, ext: seq<nat> -> seq<nat>, m: nat): seq<(nat, nat)> {
    if m == 0 || m > |es| then [] else Pairs(es, ext, m - 1) + Tagged(m - 1, ext(es[m - 1]))
  }

  lemma {:induction false} PairsInRange(es: seq<seq<nat>>, ext: seq<nat> -> seq<nat>, m: nat)
    requires m <= |es|
    ensures forall t :: 0 <= t < |Pairs(es, ext, m)| ==>
              Pairs(es, ext, m)[t].0 < m && Pairs(es, ext, m)[t].1 in ext(es[Pairs(es, ext, m)[t].0])
  {
    if m > 0 {
      PairsInRange(es, ext, m - 1);
    }
  }

  /** The embeddings of the next level. */
  ghost function NextLevel(es: seq<seq<nat>>, ext: seq<nat> -> seq<nat>): (next: seq<seq<nat>>)
    ensures |next| == |Pairs(es, ext, |es|)|
  {
    PairsInRange(es, ext, |es|);
    var pairs := Pairs(es, ext, |es|);
    seq(|pairs|, t requires 0 <= t < |pairs| => es[pairs[t].0] + [pairs[t].1])
  }

  lemma {:induction false} PairsHold(es: seq<seq<nat>>, ext: seq<nat> -> seq<nat>, m: nat, p: nat, d: nat)
    requires m <= |es| && p < m && d in ext(es[p])
    ensures (p, d) in Pairs(es, ext, m)
  {
    if p == m - 1 {
      var i :| 0 <= i < |ext(es[p])| && ext(es[p])[i] == d;
      assert Tagged(p, ext(es[p]))[i] == (p, d);
    } else {
      PairsHold(es, ext, m - 1, p, d);
    }
  }

  lemma {:induction false} PairsNoDuplicates(es: seq<seq<nat>>, ext: seq<nat> -> seq<nat>, m: nat)
    requires m <= |es| && forall e :: e in es ==> NoDuplicates(ext(e))
    ensures NoDuplicates(Pairs(es, ext, m))
  {
    if m > 0 {
      PairsNoDuplicates(es, ext, m - 1);
      PairsInRange(es, ext, m - 1);
      var added := Tagged(m - 1, ext(es[m - 1]));
      assert es[m - 1] in es;
      assert NoDuplicates(added);
    }
  }

  lemma NextLevelNoDuplicates(es: seq<seq<nat>>, ext: seq<nat> -> seq<nat>)
    requires NoDuplicates(es) && forall e :: e in es ==> NoDuplicates(ext(e))
    ensures NoDuplicates(NextLevel(es, ext))
  {
    var pairs, next := Pairs(es, ext, |es|), NextLevel(es, ext);
    PairsInRange(es, ext, |es|);
    PairsNoDuplicates(es, ext, |es|);
    forall s, t | 0 <= s < t < |next| ensures next[s] != next[t] {
      var a, b := es[pairs[s].0], es[pairs[t].0];
      assert next[s][..|next[s]| - 1] == a && next[t][..|next[t]| - 1] == b;
      assert next[s][|next[s]| - 1] == pairs[s].1 && next[t][|next[t]| - 1] == pairs[t].1;
      assert pairs[s] != pairs[t];
    }
  }

  ghost predicate IsExtension(es: seq<seq<nat>>, ext: seq<nat> -> seq<nat>, x: seq<nat>) {
    x != [] && x[..|x| - 1] in es && x[|x| - 1] in ext(x[..|x| - 1])
  }

  lemma NextLevelSound(es: seq<seq<nat>>, ext: seq<nat> -> seq<nat>, t: nat)
    requires t < |NextLevel(es, ext)|
    ensures IsExtension(es, ext, NextLevel(es, ext)[t])
  {
    var pairs := Pairs(es, ext, |es|);
    PairsInRange(es, ext, |es|);
    var x := NextLevel(es, ext)[t];
    assert x == es[pairs[t].0] + [pairs[t].1];
    assert x[..|x| - 1] == es[pairs[t].0];
  }

  lemma NextLevelComplete(es: seq<seq<nat>>, ext: seq<nat> -> seq<nat>, x: seq<nat>)
    requires IsExtension(es, ext, x)
    ensures x in NextLevel(es, ext)
  {
    var pairs, next := Pairs(es, ext, |es|), NextLevel(es, ext);
    var p :| 0 <= p < |es| && es[p] == x[..|x| - 1];
    PairsHold(es, ext, |es|, p, x[|x| - 1]);
    var t :| 0 <= t < |pairs| && pairs[t] == (p, x[|x| - 1]);
    PairsInRange(es, ext, |es|);
    assert next[t] == es[p] + [x[|x| - 1]] == x;
  }

  /** The next level holds each extension of each embedding once. */
  lemma NextLevelExact(es: seq<seq<nat>>, ext: seq<nat> -> seq<nat>)
    requires NoDuplicates(es) && forall e :: e in es ==> NoDuplicates(ext(e))
    ensures NoDuplicates(NextLevel(es, ext))
    ensures forall x :: x in NextLevel(es, ext) <==> IsExtension(es, ext, x)
  {
    NextLevelNoDuplicates(es, ext);
    forall x ensures x in NextLevel(es, ext) <==> IsExtension(es, ext, x) {
      if x in NextLevel(es, ext) {
        var t :| 0 <= t < |NextLevel(es, ext)| && NextLevel(es, ext)[t] == x;
        NextLevelSound(es, ext, t);
      }
      if IsExtension(es, ext, x) {
        NextLevelComplete(es, ext, x);
      }
    }
  }

  /** The entries of a new level below `start` are as the pairs say. */
  ghost predicate Filled(vids: seq<seq<nat>>, idxs: seq<seq<nat>>, level: nat, pairs: seq<(nat, nat)>, start: nat) {
    && level < |vids| == |idxs| && |vids[level]| == |idxs[level]|
    && start <= |pairs| && start <= |vids[level]|
    && forall t :: 0 <= t < start ==> (idxs[level][t], vids[level][t]) == pairs[t]
  }

  /** A filled level, read back, is the next level. */
  lemma FilledIsNext(vids: seq<seq<nat>>, idxs: seq<seq<nat>>, level: nat, ext: seq<nat> -> seq<nat>)
    requires 1 <= level && Linked(vids, idxs, level) && level + 1 < |vids|
    requires var es := LevelOf(vids, idxs, level);
             var pairs := Pairs(es, ext, |es|);
             |vids[level + 1]| == |pairs| && Filled(vids, idxs, level + 1, pairs, |pairs|)
    ensures Linked(vids, idxs, level + 1)
    ensures LevelOf(vids, idxs, level + 1) == NextLevel(LevelOf(vids, idxs, level), ext)
  {
    var es := LevelOf(vids, idxs, level);
    var pairs := Pairs(es, ext, |es|);
    PairsInRange(es, ext, |es|);
    forall t | 0 <= t < |pairs| ensures idxs[level + 1][t] == pairs[t].0 < |vids[level]| {
      assert (idxs[level + 1][t], vids[level + 1][t]) == pairs[t];
    }
    assert Linked(vids, idxs, level + 1);
    forall t | 0 <= t < |pairs|
      ensures LevelOf(vids, idxs, level + 1)[t] == NextLevel(es, ext)[t]
    {
      assert (idxs[level + 1][t], vids[level + 1][t]) == pairs[t];
    }
  }
}
