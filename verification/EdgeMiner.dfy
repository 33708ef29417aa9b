/** Quick-pattern aggregation by threads, and the merge of their maps
    (sansa/include/pangolin_cpu/edge_miner.h:125-150, 216-236). */
module EdgeMining {
  import opened Support

  type DomainMap<!Q> = map<Q, DomainSupport>

  /** The map holds one object for each pattern of embs, standing for what embs show of it. */
  ghost predicate Summarises<Q(!new)>(m: DomainMap<Q>, embs: seq<Embedding<Q>>, n: nat, minsup: nat)
    reads m.Values
  {
    && m.Keys == PatternsOf(embs)
    && forall qp :: qp in m ==> m[qp].Tracks(Seen(embs, qp, n)) && m[qp].minimum_support == minsup
  }

  /** Different patterns have different objects. */
  ghost predicate Injective<Q(!new)>(m: DomainMap<Q>) {
    forall a, b :: a in m && b in m && a != b ==> m[a] != m[b]
  }

  // ---------- One thread ----------

  ghost function WithOne(seen: seq<set<nat>>, vertices: seq<nat>, m: nat): (s: seq<set<nat>>)
    requires |seen| == |vertices|
    ensures |s| == |seen|
  {
    seq(|seen|, i requires 0 <= i < |seen| => if i < m then seen[i] + {vertices[i]} else seen[i])
  }

  lemma WithOneIs<Q(!new)>(embs: seq<Embedding<Q>>, e: Embedding<Q>, n: nat)
    requires |e.vertices| == n
    ensures Seen(embs + [e], e.pattern, n) == WithOne(Seen(embs, e.pattern, n), e.vertices, n)
    ensures forall qp :: qp != e.pattern ==> Seen(embs + [e], qp, n) == Seen(embs, qp, n)
    ensures PatternsOf(embs + [e]) == PatternsOf(embs) + {e.pattern}
  {
    forall i | 0 <= i < n ensures SeenAt(embs + [e], e.pattern, i) == SeenAt(embs, e.pattern, i) + {e.vertices[i]} {
      assert e in embs + [e];
    }
    forall qp | qp != e.pattern ensures Seen(embs + [e], qp, n) == Seen(embs, qp, n) {
      forall i | 0 <= i < n ensures SeenAt(embs + [e], qp, i) == SeenAt(embs, qp, i) {
      }
    }
    forall qp ensures qp in PatternsOf(embs + [e]) <==> qp in PatternsOf(embs) + {e.pattern} {
      if qp == e.pattern {
        assert e in embs + [e];
      }
    }
  }

  /** A new object, if there is none for the pattern. */
  method AddPattern<Q(==,!new)>(lmap: DomainMap<Q>, qp: Q, ghost before: seq<Embedding<Q>>, n: nat, threshold: nat)
    returns (lmap': DomainMap<Q>)
    requires Summarises(lmap, before, n, threshold) && Injective(lmap)
    ensures lmap'.Keys == PatternsOf(before) + {qp} && Injective(lmap') && fresh(lmap'.Values - lmap.Values)
    ensures forall other :: other in lmap' ==>
              lmap'[other].Tracks(Seen(before, other, n)) && lmap'[other].minimum_support == threshold
  {
    lmap' := lmap;
    if qp !in lmap' {
      var support := new DomainSupport(n);
      support.SetThreshold(threshold);
      SeenNowhere(before, qp, n);
      lmap' := lmap'[qp := support];
    }
  }

  lemma WithOneStep(seen: seq<set<nat>>, vertices: seq<nat>, m: nat)
    requires |seen| == |vertices| && m < |seen|
    ensures var s := WithOne(seen, vertices, m); WithOne(seen, vertices, m + 1) == s[m := s[m] + {vertices[m]}]
    ensures WithOne(seen, vertices, 0) == seen
  {
  }

  /** A vertex for each domain that is still open. */
  method AddAll(support: DomainSupport, vertices: seq<nat>, ghost seen: seq<set<nat>>)
    requires support.Tracks(seen) && |vertices| == |seen|
    modifies support`domains_reached_support, support`domain_sets
    ensures support.Tracks(WithOne(seen, vertices, |vertices|))
  {
    var n := |vertices|;
    assert WithOne(seen, vertices, 0) == seen;
    TracksValid(support, seen);
    hide *;
    for i := 0 to n
      invariant support.Tracks(WithOne(seen, vertices, i)) && support.Valid() && support.num_domains == n
    {
      WithOneStep(seen, vertices, i);
      var reached := support.HasDomainReachedSupport(i);
      if !reached {
        support.AddVertex(i, vertices[i], WithOne(seen, vertices, i));
      } else {
        StillReached(support, i, WithOne(seen, vertices, i), {vertices[i]});
      }
      TracksValid(support, WithOne(seen, vertices, i + 1));
    }
  }

  /** One embedding: a new object for a new pattern, then a vertex for each open domain. */
  method AggregateOne<Q(==,!new)>(lmap: DomainMap<Q>, e: Embedding<Q>, ghost before: seq<Embedding<Q>>, n: nat,
                                  threshold: nat)
    returns (lmap': DomainMap<Q>)
    requires Summarises(lmap, before, n, threshold) && Injective(lmap) && |e.vertices| == n
    modifies lmap.Values
    ensures Summarises(lmap', before + [e], n, threshold) && Injective(lmap')
    ensures fresh(lmap'.Values - lmap.Values)
  {
    var qp := e.pattern;
    lmap' := AddPattern(lmap, qp, before, n, threshold);
    var support := lmap'[qp];
    WithOneIs(before, e, n);
    hide Seen, PatternsOf, WithOne;
    AddAll(support, e.vertices, Seen(before, qp, n));
    forall other | other in lmap' && other != qp
      ensures lmap'[other].Tracks(Seen(before + [e], other, n)) && lmap'[other].minimum_support == threshold
    {
    }
  }

  /** Aggregates the embeddings of one thread. */
  method AggregateShare<Q(==,!new)>(embs: seq<Embedding<Q>>, n: nat, threshold: nat) returns (lmap: DomainMap<Q>)
    requires Sized(embs, n)
    ensures Summarises(lmap, embs, n, threshold) && Injective(lmap)
    ensures fresh(lmap.Values)
  {
    lmap := map[];
    assert embs[..0] == [];
    for pos := 0 to |embs|
      invariant Summarises(lmap, embs[..pos], n, threshold) && Injective(lmap)
      invariant fresh(lmap.Values)
    {
      assert embs[..pos + 1] == embs[..pos] + [embs[pos]];
      lmap := AggregateOne(lmap, embs[pos], embs[..pos], n, threshold);
    }
    assert embs[..|embs|] == embs;
  }

  // ---------- Merging ----------

  ghost function UnionTo(a: seq<set<nat>>, b: seq<set<nat>>, m: nat): (s: seq<set<nat>>)
    requires |a| == |b|
    ensures |s| == |a|
  {
    seq(|a|, i requires 0 <= i < |a| => if i < m then a[i] + b[i] else a[i])
  }

  lemma UnionStep(a: seq<set<nat>>, b: seq<set<nat>>, m: nat)
    requires |a| == |b| && m < |a|
    ensures UnionTo(a, b, m + 1) == UnionTo(a, b, m)[m := UnionTo(a, b, m)[m] + b[m]]
  {
  }

  lemma TracksValid(d: DomainSupport, seen: seq<set<nat>>)
    requires d.Tracks(seen)
    ensures d.Valid() && d.num_domains == |seen|
  {
  }

  /** A flagged domain stands for whatever more is seen. */
  lemma StillReached(d: DomainSupport, i: nat, seen: seq<set<nat>>, more: set<nat>)
    requires d.Tracks(seen) && i < |seen| && d.domains_reached_support[i]
    ensures d.Tracks(seen[i := seen[i] + more])
  {
    SeenMore(seen[i], more);
  }

  /** Merges one domain that is still open. */
  method MergeDomain(target: DomainSupport, support: DomainSupport, i: nat,
                     ghost seen: seq<set<nat>>, ghost more: seq<set<nat>>)
    requires target != support && target.Tracks(seen) && support.Tracks(more) && i < |seen| == |more|
    requires target.minimum_support == support.minimum_support && !target.domains_reached_support[i]
    modifies target`domains_reached_support, target`domain_sets
    ensures target.Tracks(seen[i := seen[i] + more[i]])
  {
    SeenMore(more[i], seen[i]);
    assert more[i] + seen[i] == seen[i] + more[i];
    var supportReached := support.HasDomainReachedSupport(i);
    if supportReached {
      target.SetDomainFrequent(i);
    } else {
      var flagged := target.AddVertices(i, support.domain_sets[i], seen);
    }
  }

  /** Merges one thread's object into the first thread's, unless they are the same. */
  method MergeDomains(target: DomainSupport, support: DomainSupport, n: nat, ghost seen: seq<set<nat>>,
                      ghost more: seq<set<nat>>)
    requires target.Tracks(seen) && support.Tracks(more) && |seen| == |more| == n
    requires target.minimum_support == support.minimum_support
    modifies target`domains_reached_support, target`domain_sets
    ensures target != support ==> target.Tracks(Union(seen, more))
    ensures target == support ==> target.Tracks(seen)
  {
    assert UnionTo(seen, more, 0) == seen;
    assert UnionTo(seen, more, n) == Union(seen, more);
    TracksValid(target, seen);
    hide *;
    for i := 0 to n
      invariant target != support ==> target.Tracks(UnionTo(seen, more, i)) && support.Tracks(more)
      invariant target == support ==> target.Tracks(seen)
      invariant target.Valid() && target.num_domains == n && target.minimum_support == support.minimum_support
    {
      UnionStep(seen, more, i);
      var reached := target.HasDomainReachedSupport(i);
      if target != support {
        if !reached {
          MergeDomain(target, support, i, UnionTo(seen, more, i), more);
        } else {
          StillReached(target, i, UnionTo(seen, more, i), more[i]);
        }
        TracksValid(target, UnionTo(seen, more, i + 1));
      }
    }
  }

  lemma UnionWithNothing(a: seq<set<nat>>, b: seq<set<nat>>)
    requires |a| == |b|
    ensures b == Nowhere(|a|) ==> Union(a, b) == a
    ensures a == Nowhere(|a|) ==> Union(a, b) == b
  {
    if b == Nowhere(|a|) {
      forall i | 0 <= i < |a| ensures Union(a, b)[i] == a[i] {
        assert b[i] == {};
      }
    }
    if a == Nowhere(|a|) {
      forall i | 0 <= i < |a| ensures Union(a, b)[i] == b[i] {
        assert a[i] == {};
      }
    }
  }

  /** While the patterns of one thread are merged: what the object of qp stands for. */
  ghost function SeenSoFar<Q(!new)>(before: seq<Embedding<Q>>, share: seq<Embedding<Q>>, qp: Q, n: nat,
                                    done: set<Q>): seq<set<nat>> {
    if qp in done || qp !in PatternsOf(before) then Seen(before + share, qp, n) else Seen(before, qp, n)
  }

  lemma SoFarIs<Q(!new)>(before: seq<Embedding<Q>>, share: seq<Embedding<Q>>, qp: Q, n: nat, done: set<Q>)
    ensures qp !in PatternsOf(before) ==> SeenSoFar(before, share, qp, n, done) == Seen(share, qp, n)
    ensures qp !in PatternsOf(share) ==>
              SeenSoFar(before, share, qp, n, done) == Seen(before + share, qp, n) == Seen(before, qp, n)
    ensures qp in done ==> SeenSoFar(before, share, qp, n, done) == Seen(before + share, qp, n)
    ensures Union(Seen(before, qp, n), Seen(share, qp, n)) == Seen(before + share, qp, n)
  {
    SeenConcat(before, share, qp, n);
    UnionWithNothing(Seen(before, qp, n), Seen(share, qp, n));
    if qp !in PatternsOf(before) {
      SeenNowhere(before, qp, n);
    }
    if qp !in PatternsOf(share) {
      SeenNowhere(share, qp, n);
    }
  }

  /** Patterns new to the map share the thread's object. */
  ghost predicate Shares<Q(!new)>(merged: DomainMap<Q>, qp_map: DomainMap<Q>, lmap: DomainMap<Q>) {
    && (forall qp :: qp in merged <==> qp in qp_map || qp in lmap)
    && (forall qp :: qp in qp_map ==> qp in merged && merged[qp] == qp_map[qp])
    && (forall qp :: qp in lmap && qp !in qp_map ==> qp in merged && merged[qp] == lmap[qp])
  }

  ghost function Restricted<Q(!new)>(lmap: DomainMap<Q>, keys: set<Q>): DomainMap<Q> {
    map qp | qp in lmap && qp !in keys :: lmap[qp]
  }

  lemma SharesNothing<Q(!new)>(qp_map: DomainMap<Q>, lmap: DomainMap<Q>)
    ensures Shares(qp_map, qp_map, Restricted(lmap, lmap.Keys))
    ensures Restricted(lmap, {}) == lmap
  {
  }

  lemma SharesNext<Q(!new)>(merged: DomainMap<Q>, qp_map: DomainMap<Q>, lmap: DomainMap<Q>, keys: set<Q>, qp: Q)
    requires Shares(merged, qp_map, Restricted(lmap, keys)) && qp in keys && qp in lmap
    ensures Shares(if qp in merged then merged else merged[qp := lmap[qp]], qp_map, Restricted(lmap, keys - {qp}))
  {
  }

  method AddNewPatterns<Q(==,!new)>(qp_map: DomainMap<Q>, lmap: DomainMap<Q>) returns (merged: DomainMap<Q>)
    ensures Shares(merged, qp_map, lmap)
  {
    hide *;
    merged := qp_map;
    var keys := lmap.Keys;
    SharesNothing(qp_map, lmap);
    while keys != {}
      invariant keys <= lmap.Keys && Shares(merged, qp_map, Restricted(lmap, keys))
      decreases |keys|
    {
      var qp :| qp in keys;
      SharesNext(merged, qp_map, lmap, keys, qp);
      keys := keys - {qp};
      if qp !in merged {
        merged := merged[qp := lmap[qp]];
      }
    }
  }

  /** The state while the patterns in `done` have been merged. */
  ghost predicate Merging<Q(!new)>(merged: DomainMap<Q>, lmap: DomainMap<Q>, before: seq<Embedding<Q>>,
                                   share: seq<Embedding<Q>>, n: nat, minsup: nat, done: set<Q>)
    reads merged.Values, lmap.Values
  {
    && (forall qp :: qp in merged <==> qp in PatternsOf(before) || qp in PatternsOf(share))
    && (forall qp :: qp in lmap <==> qp in PatternsOf(share))
    && (forall qp :: qp in merged ==>
          merged[qp].Tracks(SeenSoFar(before, share, qp, n, done)) && merged[qp].minimum_support == minsup)
    && (forall qp :: qp in lmap ==> lmap[qp].Tracks(Seen(share, qp, n)) && lmap[qp].minimum_support == minsup)
    && (forall qp :: qp in merged && qp !in PatternsOf(before) ==> merged[qp] == lmap[qp])
    && (forall qp, other :: qp in PatternsOf(before) && qp in merged && other in lmap ==> merged[qp] != lmap[other])
    && (forall qp, other :: qp in merged && other in merged && qp != other ==> merged[qp] != merged[other])
    && Injective(lmap)
  }

  lemma MergingStarts<Q(!new)>(qp_map: DomainMap<Q>, merged: DomainMap<Q>, lmap: DomainMap<Q>,
                               before: seq<Embedding<Q>>, share: seq<Embedding<Q>>, n: nat, minsup: nat)
    requires Summarises(qp_map, before, n, minsup) && Injective(qp_map)
    requires Summarises(lmap, share, n, minsup) && Injective(lmap) && qp_map.Values !! lmap.Values
    requires Shares(merged, qp_map, lmap)
    ensures Merging(merged, lmap, before, share, n, minsup, {})
  {
    forall qp | qp in merged ensures merged[qp].Tracks(SeenSoFar(before, share, qp, n, {})) {
      SoFarIs(before, share, qp, n, {});
    }
    forall qp, other | qp in PatternsOf(before) && qp in merged && other in lmap ensures merged[qp] != lmap[other] {
      assert qp_map[qp] in qp_map.Values && lmap[other] in lmap.Values;
    }
    forall qp, other | qp in merged && other in merged && qp != other ensures merged[qp] != merged[other] {
      assert qp in qp_map ==> qp_map[qp] in qp_map.Values;
      assert other in qp_map ==> qp_map[other] in qp_map.Values;
      assert qp in lmap ==> lmap[qp] in lmap.Values;
      assert other in lmap ==> lmap[other] in lmap.Values;
    }
  }

  lemma MergingEnds<Q(!new)>(merged: DomainMap<Q>, lmap: DomainMap<Q>, before: seq<Embedding<Q>>,
                             share: seq<Embedding<Q>>, n: nat, minsup: nat)
    requires Merging(merged, lmap, before, share, n, minsup, lmap.Keys)
    ensures Summarises(merged, before + share, n, minsup) && Injective(merged)
  {
    forall qp | qp in merged ensures merged[qp].Tracks(Seen(before + share, qp, n)) {
      SoFarIs(before, share, qp, n, lmap.Keys);
    }
    PatternsConcat(before, share);
  }

  lemma MergingAt<Q(!new)>(merged: DomainMap<Q>, lmap: DomainMap<Q>, before: seq<Embedding<Q>>,
                           share: seq<Embedding<Q>>, n: nat, minsup: nat, done: set<Q>, qp: Q)
    requires Merging(merged, lmap, before, share, n, minsup, done) && qp in lmap
    ensures qp in merged
    ensures |SeenSoFar(before, share, qp, n, done)| == |Seen(share, qp, n)| == n
    ensures merged[qp].Tracks(SeenSoFar(before, share, qp, n, done)) && merged[qp].minimum_support == minsup
    ensures lmap[qp].Tracks(Seen(share, qp, n)) && lmap[qp].minimum_support == minsup
  {
  }

  lemma SoFarNext<Q(!new)>(before: seq<Embedding<Q>>, share: seq<Embedding<Q>>, qp: Q, other: Q, n: nat, done: set<Q>)
    requires qp !in done
    ensures other != qp ==> SeenSoFar(before, share, other, n, done + {qp}) == SeenSoFar(before, share, other, n, done)
    ensures qp in PatternsOf(before) ==>
              SeenSoFar(before, share, qp, n, done + {qp})
                  == Union(SeenSoFar(before, share, qp, n, done), Seen(share, qp, n))
    ensures qp !in PatternsOf(before) ==>
              SeenSoFar(before, share, qp, n, done + {qp}) == SeenSoFar(before, share, qp, n, done)
  {
    SoFarIs(before, share, qp, n, done);
    SoFarIs(before, share, qp, n, done + {qp});
  }

  /** Merges one pattern of one thread. */
  method MergePattern<Q(==,!new)>(merged: DomainMap<Q>, lmap: DomainMap<Q>, qp: Q, n: nat,
                                  ghost before: seq<Embedding<Q>>, ghost share: seq<Embedding<Q>>, ghost minsup: nat,
                                  ghost done: set<Q>)
    requires Merging(merged, lmap, before, share, n, minsup, done) && qp in lmap && qp in merged && qp !in done
    modifies merged[qp]
    ensures Merging(merged, lmap, before, share, n, minsup, done + {qp})
  {
    hide SeenSoFar, Seen, Union, PatternsOf, Counts;
    var target := merged[qp];
    MergingAt(merged, lmap, before, share, n, minsup, done, qp);
    MergeDomains(target, lmap[qp], n, SeenSoFar(before, share, qp, n, done), Seen(share, qp, n));
    forall other | other in merged
      ensures merged[other].Tracks(SeenSoFar(before, share, other, n, done + {qp}))
              && merged[other].minimum_support == minsup
    {
      SoFarNext(before, share, qp, other, n, done);
    }
    forall other | other in lmap
      ensures lmap[other].Tracks(Seen(share, other, n)) && lmap[other].minimum_support == minsup
    {
      SoFarIs(before, share, qp, n, done);
    }
  }

  lemma MapValue<Q(!new)>(m: DomainMap<Q>, qp: Q)
    requires qp in m
    ensures m[qp] in m.Values
  {
  }

  lemma SharedObjects<Q(!new)>(merged: DomainMap<Q>, qp_map: DomainMap<Q>, lmap: DomainMap<Q>)
    requires Shares(merged, qp_map, lmap)
    ensures merged.Values <= qp_map.Values + lmap.Values
  {
    forall o | o in merged.Values ensures o in qp_map.Values + lmap.Values {
      var qp :| qp in merged && merged[qp] == o;
      if qp in qp_map {
        MapValue(qp_map, qp);
      } else {
        MapValue(lmap, qp);
      }
    }
  }

  /** Merges the map of one thread. */
  method MergeThread<Q(==,!new)>(qp_map: DomainMap<Q>, lmap: DomainMap<Q>, num_domains: nat,
                                 ghost before: seq<Embedding<Q>>, ghost share: seq<Embedding<Q>>, ghost minsup: nat)
    returns (merged: DomainMap<Q>)
    requires Summarises(qp_map, before, num_domains, minsup) && Injective(qp_map)
    requires Summarises(lmap, share, num_domains, minsup) && Injective(lmap) && qp_map.Values !! lmap.Values
    modifies qp_map.Values, lmap.Values
    ensures Summarises(merged, before + share, num_domains, minsup) && Injective(merged)
    ensures merged.Values <= qp_map.Values + lmap.Values
  {
    hide *;
    merged := AddNewPatterns(qp_map, lmap);
    MergingStarts(qp_map, merged, lmap, before, share, num_domains, minsup);
    SharedObjects(merged, qp_map, lmap);
    var keys := lmap.Keys;
    ghost var done: set<Q> := {};
    while keys != {}
      invariant keys <= lmap.Keys && done == lmap.Keys - keys
      invariant Merging(merged, lmap, before, share, num_domains, minsup, done)
      decreases |keys|
    {
      var qp :| qp in keys;
      MergingAt(merged, lmap, before, share, num_domains, minsup, done, qp);
      MapValue(merged, qp);
      MergePattern(merged, lmap, qp, num_domains, before, share, minsup, done);
      keys := keys - {qp};
      done := done + {qp};
    }
    assert done == lmap.Keys;
    MergingEnds(merged, lmap, before, share, num_domains, minsup);
  }

  // ---------- All threads ----------

  ghost predicate LocalMaps<Q(!new)>(lmaps: seq<DomainMap<Q>>, shares: seq<seq<Embedding<Q>>>, n: nat, minsup: nat,
                                     first: nat)
    reads set t, o | 0 <= t < |lmaps| && o in lmaps[t].Values :: o
  {
    && |lmaps| <= |shares|
    && forall t :: first <= t < |lmaps| ==> Summarises(lmaps[t], shares[t], n, minsup) && Injective(lmaps[t])
  }

  /** No two threads share an object. */
  ghost predicate Separate<Q>(lmaps: seq<DomainMap<Q>>) {
    forall t, t' :: 0 <= t < t' < |lmaps| ==> lmaps[t].Values !! lmaps[t'].Values
  }

  ghost function ObjectsUpTo<Q>(lmaps: seq<DomainMap<Q>>, m: nat): set<DomainSupport> {
    set t, o | 0 <= t < m && t < |lmaps| && o in lmaps[t].Values :: o
  }

  lemma NoMaps<Q>(lmaps: seq<DomainMap<Q>>)
    requires lmaps == []
    ensures Separate(lmaps) && ObjectsUpTo(lmaps, 0) == {}
  {
  }

  lemma OneMoreMap<Q>(before: seq<DomainMap<Q>>, lmap: DomainMap<Q>)
    requires Separate(before) && ObjectsUpTo(before, |before|) !! lmap.Values
    ensures Separate(before + [lmap])
    ensures ObjectsUpTo(before + [lmap], |before| + 1) == ObjectsUpTo(before, |before|) + lmap.Values
    ensures forall u :: 0 <= u < |before| ==> before[u].Values <= ObjectsUpTo(before, |before|)
  {
    var lmaps := before + [lmap];
    forall u | 0 <= u < |before| ensures before[u].Values <= ObjectsUpTo(before, |before|) {
    }
    forall o | o in ObjectsUpTo(before, |before|) + lmap.Values ensures o in ObjectsUpTo(lmaps, |before| + 1) {
      if o in lmap.Values {
        assert o in lmaps[|before|].Values;
      } else {
        var t :| 0 <= t < |before| && o in before[t].Values;
        assert o in lmaps[t].Values;
      }
    }
  }

  lemma TogetherStep<Q>(shares: seq<seq<Embedding<Q>>>, t: nat)
    requires t < |shares|
    ensures Together(shares, t + 1) == Together(shares, t) + shares[t]
    ensures t == 0 ==> Together(shares, 1) == shares[0]
  {
    assert t == 0 ==> [] + shares[0] == shares[0];
  }

  lemma {:induction false} TogetherSized<Q>(shares: seq<seq<Embedding<Q>>>, t: nat, n: nat)
    requires t <= |shares| && forall u :: 0 <= u < |shares| ==> Sized(shares[u], n)
    ensures Sized(Together(shares, t), n)
    decreases t
  {
    if t > 0 {
      TogetherSized(shares, t - 1, n);
    }
  }

  lemma FirstObjects<Q>(lmaps: seq<DomainMap<Q>>)
    requires |lmaps| > 0
    ensures lmaps[0].Values <= ObjectsUpTo(lmaps, 1)
  {
  }

  lemma ObjectsApart<Q>(lmaps: seq<DomainMap<Q>>, i: nat)
    requires Separate(lmaps) && i < |lmaps|
    ensures ObjectsUpTo(lmaps, i) !! lmaps[i].Values
    ensures forall t :: i < t < |lmaps| ==> lmaps[t].Values !! ObjectsUpTo(lmaps, i + 1)
    ensures ObjectsUpTo(lmaps, i) + lmaps[i].Values <= ObjectsUpTo(lmaps, i + 1) <= ObjectsUpTo(lmaps, |lmaps|)
  {
    forall o | o in ObjectsUpTo(lmaps, i) ensures o !in lmaps[i].Values {
      var t :| 0 <= t < i && o in lmaps[t].Values;
      assert lmaps[t].Values !! lmaps[i].Values;
    }
    forall t, o | i < t < |lmaps| && o in ObjectsUpTo(lmaps, i + 1) ensures o !in lmaps[t].Values {
      var u :| 0 <= u < i + 1 && o in lmaps[u].Values;
      assert lmaps[u].Values !! lmaps[t].Values;
    }
  }

  class EdgeMiner<Q(==,!new)> {
    const threshold: nat
    var qp_localmaps: seq<DomainMap<Q>>
    var qp_map: DomainMap<Q>

    constructor (minsup: nat)
      ensures threshold == minsup && qp_localmaps == [] && qp_map == map[]
    {
      threshold := minsup;
      qp_localmaps, qp_map := [], map[];
    }

    /** Every thread aggregates its share of the embeddings. */
    method QuickAggregate(shares: seq<seq<Embedding<Q>>>, n: nat)
      requires forall t :: 0 <= t < |shares| ==> Sized(shares[t], n)
      modifies this`qp_localmaps
      ensures |qp_localmaps| == |shares| && LocalMaps(qp_localmaps, shares, n, threshold, 0) && Separate(qp_localmaps)
      ensures fresh(ObjectsUpTo(qp_localmaps, |shares|))
    {
      hide Summarises, Injective, Sized, Separate, ObjectsUpTo;
      qp_localmaps := [];
      NoMaps(qp_localmaps);
      ghost var objects: set<DomainSupport> := {};
      for t := 0 to |shares|
        invariant |qp_localmaps| == t && Separate(qp_localmaps)
        invariant forall u :: 0 <= u < t ==>
                    Summarises(qp_localmaps[u], shares[u], n, threshold) && Injective(qp_localmaps[u])
        invariant objects == ObjectsUpTo(qp_localmaps, t) && fresh(objects)
      {
        var before := qp_localmaps;
        var lmap := AggregateShare(shares[t], n, threshold);
        qp_localmaps := before + [lmap];
        OneMoreMap(before, lmap);
        objects := objects + lmap.Values;
        forall u | 0 <= u < t
          ensures Summarises(before[u], shares[u], n, threshold)
        {
          assert before[u].Values <= objects - lmap.Values;
        }
      }
    }

    /** Merges the maps of all threads. */
    method MergeQpMap(num_domains: nat, ghost shares: seq<seq<Embedding<Q>>>)
      requires |qp_localmaps| == |shares| > 0 && Separate(qp_localmaps)
      requires LocalMaps(qp_localmaps, shares, num_domains, threshold, 0)
      modifies this`qp_map, ObjectsUpTo(qp_localmaps, |qp_localmaps|)
      ensures Summarises(qp_map, Together(shares, |shares|), num_domains, threshold)
    {
      hide Summarises, Injective, Together, Separate, ObjectsUpTo;
      FirstObjects(qp_localmaps);
      qp_map := qp_localmaps[0];
      TogetherStep(shares, 0);
      for i := 1 to |qp_localmaps|
        invariant Summarises(qp_map, Together(shares, i), num_domains, threshold) && Injective(qp_map)
        invariant qp_map.Values <= ObjectsUpTo(qp_localmaps, i)
        invariant LocalMaps(qp_localmaps, shares, num_domains, threshold, i)
      {
        TogetherStep(shares, i);
        ObjectsApart(qp_localmaps, i);
        qp_map := MergeThread(qp_map, qp_localmaps[i], num_domains, Together(shares, i), shares[i], threshold);
      }
    }

    /** The merged support of a pattern is that of all embeddings together, however they were split. */
    method SupportOf(qp: Q, n: nat, ghost shares: seq<seq<Embedding<Q>>>) returns (r: bool)
      requires Summarises(qp_map, Together(shares, |shares|), n, threshold) && qp in qp_map
      requires forall t :: 0 <= t < |shares| ==> Sized(shares[t], n)
      ensures r <==> Frequent(Together(shares, |shares|), qp, n, threshold)
    {
      ghost var all := Together(shares, |shares|);
      TogetherSized(shares, |shares|, n);
      SeenSomething(all, qp, n);
      r := qp_map[qp].GetSupport(Seen(all, qp, n));
      assert forall i :: 0 <= i < n ==> Seen(all, qp, n)[i] == SeenAt(all, qp, i);
    }
  }

  lemma FrequentOfSameElements<Q>(a: seq<Embedding<Q>>, b: seq<Embedding<Q>>, qp: Q, n: nat, minsup: nat)
    requires forall e :: e in a <==> e in b
    ensures Frequent(a, qp, n, minsup) <==> Frequent(b, qp, n, minsup)
    ensures PatternsOf(a) == PatternsOf(b)
  {
    forall i | 0 <= i < n ensures SeenAt(a, qp, i) == SeenAt(b, qp, i) {
      SeenOfSameElements(a, b, qp, i);
    }
  }

  // ---------- Whole runs ----------

  /** Aggregate by threads, merge, and ask for one pattern. */
  method MinedSupport<Q(==,!new)>(shares: seq<seq<Embedding<Q>>>, qp: Q, n: nat, minsup: nat) returns (r: bool)
    requires |shares| > 0 && forall t :: 0 <= t < |shares| ==> Sized(shares[t], n)
    ensures r <==> qp in PatternsOf(Together(shares, |shares|)) && Frequent(Together(shares, |shares|), qp, n, minsup)
  {
    hide Sized, Frequent, Together, Injective, PatternsOf;
    var miner := new EdgeMiner<Q>(minsup);
    miner.QuickAggregate(shares, n);
    miner.MergeQpMap(n, shares);
    r := false;
    if qp in miner.qp_map {
      r := miner.SupportOf(qp, n, shares);
    }
  }

  /** Two runs on the same embeddings, split differently, agree on every pattern. */
  method SplitDoesNotMatter<Q(==,!new)>(a: seq<seq<Embedding<Q>>>, b: seq<seq<Embedding<Q>>>, qp: Q, n: nat,
                                        minsup: nat)
    returns (ra: bool, rb: bool)
    requires |a| > 0 && (forall t :: 0 <= t < |a| ==> Sized(a[t], n))
    requires |b| > 0 && (forall t :: 0 <= t < |b| ==> Sized(b[t], n))
    requires forall e :: e in Together(a, |a|) <==> e in Together(b, |b|)
    ensures ra == rb
    ensures ra <==> qp in PatternsOf(Together(a, |a|)) && Frequent(Together(a, |a|), qp, n, minsup)
  {
    hide *;
    ra := MinedSupport(a, qp, n, minsup);
    rb := MinedSupport(b, qp, n, minsup);
    FrequentOfSameElements(Together(a, |a|), Together(b, |b|), qp, n, minsup);
  }
}
