/** Minimum-image support, counted by threads and merged
    (sansa/include/pangolin_cpu/domain_support.h, sansa/include/pangolin_cpu/edge_miner.h:125-150, 216-236). */
module Support {
  import opened Counting

  // ---------- Domains ----------

  /** A domain is either flagged, having reached the threshold, or holds exactly the vertices seen. */
  ghost predicate Counts(reached: bool, domain: set<nat>, seen: set<nat>, minimum_support: nat) {
    if reached then |seen| >= minimum_support
    else domain == seen && (seen == {} || |seen| < minimum_support)
  }

  lemma SeenMore(seen: set<nat>, more: set<nat>)
    ensures |seen| <= |seen + more|
  {
    SubsetCard(seen, seen + more);
  }

  class DomainSupport {
    var minimum_support: nat
    var num_domains: nat
    var enough_support: bool
    var domains_reached_support: seq<bool>
    var domain_sets: seq<set<nat>>

    ghost predicate Valid()
      reads this
    {
      |domains_reached_support| == |domain_sets| == num_domains
    }

    /** Domain i stands for the vertices seen[i]. */
    ghost predicate Tracks(seen: seq<set<nat>>)
      reads this
    {
      && Valid() && |seen| == num_domains
      && forall i :: 0 <= i < num_domains ==>
           Counts(domains_reached_support[i], domain_sets[i], seen[i], minimum_support)
    }

    constructor (n: nat)
      ensures num_domains == n && !enough_support
      ensures Valid() && forall i :: 0 <= i < n ==> !domains_reached_support[i] && domain_sets[i] == {}
    {
      num_domains := n;
      minimum_support := 0;
      enough_support := false;
      domains_reached_support := seq(n, i => false);
      domain_sets := seq(n, i => {});
    }

    method SetThreshold(minsup: nat)
      modifies this`minimum_support
      ensures minimum_support == minsup
    {
      minimum_support := minsup;
    }

    method HasDomainReachedSupport(i: nat) returns (r: bool)
      requires Valid() && i < num_domains
      ensures r == domains_reached_support[i]
    {
      r := domains_reached_support[i];
    }

    method SetDomainFrequent(i: nat)
      requires Valid() && i < num_domains
      modifies this`domains_reached_support, this`domain_sets
      ensures domains_reached_support == old(domains_reached_support)[i := true]
      ensures domain_sets == old(domain_sets)[i := {}]
    {
      domains_reached_support := domains_reached_support[i := true];
      domain_sets := domain_sets[i := {}];
    }

    /** One more vertex. */
    method AddVertex(i: nat, vid: nat, ghost seen: seq<set<nat>>)
      requires Tracks(seen) && i < num_domains
      modifies this`domains_reached_support, this`domain_sets
      ensures Tracks(seen[i := seen[i] + {vid}])
    {
      SeenMore(seen[i], {vid});
      domain_sets := domain_sets[i := domain_sets[i] + {vid}];
      if |domain_sets[i]| >= minimum_support {
        SetDomainFrequent(i);
      }
    }

    /** More vertices; tells whether the domain is flagged now. An open domain holds what was seen, so these vertices
        are added to it. A flagged one loses its flag, and what it stood for: it starts again from what its set
        holds. */
    method AddVertices(i: nat, vertices: set<nat>, ghost seen: seq<set<nat>>) returns (r: bool)
      requires Tracks(seen) && i < num_domains
      modifies this`domains_reached_support, this`domain_sets
      ensures Tracks(seen[i := old(domain_sets[i]) + vertices]) && r == domains_reached_support[i]
      ensures !old(domains_reached_support[i]) ==> Tracks(seen[i := seen[i] + vertices])
      ensures r <==> |old(domain_sets[i]) + vertices| >= minimum_support
    {
      domains_reached_support := domains_reached_support[i := false];
      domain_sets := domain_sets[i := domain_sets[i] + vertices];
      if |domain_sets[i]| >= minimum_support {
        SetDomainFrequent(i);
        return true;
      }
      return false;
    }

    /** Have all domains reached the threshold? */
    method GetSupport(ghost seen: seq<set<nat>>) returns (r: bool)
      requires Tracks(seen)
      ensures r ==> forall i :: 0 <= i < |seen| ==> |seen[i]| >= minimum_support
      ensures (minimum_support > 0 || forall i :: 0 <= i < |seen| ==> seen[i] != {}) ==>
                (r <==> forall i :: 0 <= i < |seen| ==> |seen[i]| >= minimum_support)
    {
      r := true;
      for i := 0 to num_domains
        invariant r ==> forall j :: 0 <= j < i ==> |seen[j]| >= minimum_support
        invariant (minimum_support > 0 || forall i :: 0 <= i < |seen| ==> seen[i] != {}) ==>
                    (r <==> forall j :: 0 <= j < i ==> |seen[j]| >= minimum_support)
      {
        assert Counts(domains_reached_support[i], domain_sets[i], seen[i], minimum_support);
        r := r && domains_reached_support[i];
      }
    }
  }

  // ---------- What the embeddings show ----------

  /** An embedding: its quick pattern, and the vertex at each position. */
  datatype Embedding<Q> = Embedding(pattern: Q, vertices: seq<nat>)

  /** All embeddings have n positions. */
  ghost predicate Sized<Q>(embs: seq<Embedding<Q>>, n: nat) {
    forall e :: e in embs ==> |e.vertices| == n
  }

  ghost function PatternsOf<Q>(embs: seq<Embedding<Q>>): set<Q> {
    set e | e in embs :: e.pattern
  }

  /** The distinct vertices at position i of the embeddings of a pattern. */
  ghost function SeenAt<Q>(embs: seq<Embedding<Q>>, qp: Q, i: nat): set<nat> {
    set e | e in embs && e.pattern == qp && i < |e.vertices| :: e.vertices[i]
  }

  ghost function Seen<Q>(embs: seq<Embedding<Q>>, qp: Q, n: nat): (s: seq<set<nat>>)
    ensures |s| == n
  {
    seq(n, i requires 0 <= i => SeenAt(embs, qp, i))
  }

  ghost function Union(a: seq<set<nat>>, b: seq<set<nat>>): (s: seq<set<nat>>)
    requires |a| == |b|
    ensures |s| == |a|
  {
    seq(|a|, i requires 0 <= i < |a| => a[i] + b[i])
  }

  lemma SeenConcat<Q>(a: seq<Embedding<Q>>, b: seq<Embedding<Q>>, qp: Q, n: nat)
    ensures Seen(a + b, qp, n) == Union(Seen(a, qp, n), Seen(b, qp, n))
  {
    forall i | 0 <= i < n ensures SeenAt(a + b, qp, i) == SeenAt(a, qp, i) + SeenAt(b, qp, i) {
    }
  }

  lemma PatternsConcat<Q>(a: seq<Embedding<Q>>, b: seq<Embedding<Q>>)
    ensures PatternsOf(a + b) == PatternsOf(a) + PatternsOf(b)
  {
  }

  ghost function Nowhere(n: nat): (s: seq<set<nat>>)
    ensures |s| == n
  {
    seq(n, i => {})
  }

  /** A pattern that occurs has a vertex at each position. */
  lemma SeenSomething<Q>(embs: seq<Embedding<Q>>, qp: Q, n: nat)
    requires Sized(embs, n) && qp in PatternsOf(embs)
    ensures forall i :: 0 <= i < n ==> Seen(embs, qp, n)[i] != {}
  {
    var e :| e in embs && e.pattern == qp;
    forall i | 0 <= i < n ensures SeenAt(embs, qp, i) != {} {
      assert e.vertices[i] in SeenAt(embs, qp, i);
    }
  }

  lemma SeenNowhere<Q>(embs: seq<Embedding<Q>>, qp: Q, n: nat)
    requires qp !in PatternsOf(embs)
    ensures Seen(embs, qp, n) == Nowhere(n)
  {
    forall i | 0 <= i < n ensures SeenAt(embs, qp, i) == {} {
    }
  }

  /** The support depends on which embeddings there are, not on their order or repetition. */
  lemma SeenOfSameElements<Q>(a: seq<Embedding<Q>>, b: seq<Embedding<Q>>, qp: Q, i: nat)
    requires forall e :: e in a <==> e in b
    ensures SeenAt(a, qp, i) == SeenAt(b, qp, i)
  {
  }

  /** The embeddings of the first t threads. */
  ghost function Together<Q>(shares: seq<seq<Embedding<Q>>>, t: nat): seq<Embedding<Q>>
    requires t <= |shares|
  {
    if t == 0 then [] else Together(shares, t - 1) + shares[t - 1]
  }

  /** Every position of the pattern has at least minsup distinct vertices. */
  ghost predicate Frequent<Q>(embs: seq<Embedding<Q>>, qp: Q, n: nat, minsup: nat) {
    forall i :: 0 <= i < n ==> |SeenAt(embs, qp, i)| >= minsup
  }
}
