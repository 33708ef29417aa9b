/** Finite counting: cardinalities of images and fibres, sums over finite sets,
    and the exchange of the order of summation. */
module Counting {
  datatype Option<T> = None | Some(value: T)

  /** The image of an injection has as many elements as its domain. */
  lemma {:induction false} ImageCard<A, B>(s: set<A>, h: A -> B)
    requires forall a, a' :: a in s && a' in s && h(a) == h(a') ==> a == a'
    ensures |set a | a in s :: h(a)| == |s|
    decreases s
  {
    var image := set a | a in s :: h(a);
    if s == {} {
      assert image == {};
    } else {
      var x :| x in s;
      ImageCard(s - {x}, h);
      assert image == (set a | a in s - {x} :: h(a)) + {h(x)};
    }
  }

  /** A bijection, given by the map and its surjectivity, preserves cardinality. */
  lemma BijectionCard<A, B>(s: set<A>, t: set<B>, h: A -> B)
    requires forall a :: a in s ==> h(a) in t
    requires forall a, a' :: a in s && a' in s && h(a) == h(a') ==> a == a'
    requires forall b :: b in t ==> exists a :: a in s && h(a) == b
    ensures |s| == |t|
  {
    ImageCard(s, h);
    assert (set a | a in s :: h(a)) == t;
  }

  ghost function Fibre<A, B>(s: set<A>, h: A -> B, b: B): set<A> {
    set a | a in s && h(a) == b
  }

  lemma OneMoreTimes(k: nat, n: nat)
    requires n > 0
    ensures k * (n - 1) + k == k * n
  {
  }

  /** Taking one fibre out leaves the others alone. */
  lemma WithoutFibre<A, B>(s: set<A>, h: A -> B, b: B, b': B)
    ensures Fibre(s, h, b) <= s && |s| == |s - Fibre(s, h, b)| + |Fibre(s, h, b)|
    ensures b' != b ==> Fibre(s - Fibre(s, h, b), h, b') == Fibre(s, h, b')
    ensures forall a :: a in s - Fibre(s, h, b) ==> a in s && h(a) != b
  {
    assert s == (s - Fibre(s, h, b)) + Fibre(s, h, b);
  }

  /** A set that splits into |t| fibres of k elements each has k * |t| elements. */
  lemma {:induction false} FibreCard<A, B>(s: set<A>, t: set<B>, h: A -> B, k: nat)
    requires forall a :: a in s ==> h(a) in t
    requires forall b :: b in t ==> |Fibre(s, h, b)| == k
    ensures |s| == k * |t|
    decreases t
  {
    if t == {} {
      assert s == {};
    } else {
      var b :| b in t;
      hide Fibre;
      var rest := s - Fibre(s, h, b);
      forall b' | b' in t ensures b' != b ==> |Fibre(rest, h, b')| == k {
        WithoutFibre(s, h, b, b');
      }
      FibreCard(rest, t - {b}, h, k);
      OneMoreTimes(k, |t|);
    }
  }

  lemma SubsetCard<A>(s: set<A>, t: set<A>)
    requires s <= t
    ensures |s| <= |t|
  {
    assert t == s + (t - s);
  }

  /** The sum of f over a finite set. */
  ghost function Sum<A(!new)>(s: set<A>, f: A -> int): int
    decreases s
  {
    if s == {} then 0 else
      var x :| x in s;
      f(x) + Sum(s - {x}, f)
  }

  lemma {:induction false} SumRemove<A(!new)>(s: set<A>, f: A -> int, x: A)
    requires x in s
    ensures Sum(s, f) == f(x) + Sum(s - {x}, f)
    decreases s
  {
    var y :| y in s && Sum(s, f) == f(y) + Sum(s - {y}, f);
    if y != x {
      SumRemove(s - {y}, f, x);
      SumRemove(s - {x}, f, y);
      assert s - {y} - {x} == s - {x} - {y};
    }
  }

  lemma {:induction false} SumCongruence<A(!new)>(s: set<A>, f: A -> int, f': A -> int)
    requires forall a :: a in s ==> f(a) == f'(a)
    ensures Sum(s, f) == Sum(s, f')
    decreases s
  {
    if s != {} {
      var x :| x in s;
      SumRemove(s, f, x);
      SumRemove(s, f', x);
      SumCongruence(s - {x}, f, f');
    }
  }

  lemma {:induction false} SumScale<A(!new)>(s: set<A>, f: A -> int, k: int, f': A -> int)
    requires forall a :: a in s ==> f'(a) == k * f(a)
    ensures Sum(s, f') == k * Sum(s, f)
    decreases s
  {
    if s != {} {
      var x :| x in s;
      SumRemove(s, f, x);
      SumRemove(s, f', x);
      SumScale(s - {x}, f, k, f');
    }
  }

  lemma {:induction false} SumConstant<A(!new)>(s: set<A>, f: A -> int, k: int)
    requires forall a :: a in s ==> f(a) == k
    ensures Sum(s, f) == k * |s|
    decreases s
  {
    if s != {} {
      var x :| x in s;
      SumRemove(s, f, x);
      SumConstant(s - {x}, f, k);
    }
  }

  lemma {:induction false} SumUnion<A(!new)>(s: set<A>, t: set<A>, f: A -> int)
    requires s !! t
    ensures Sum(s + t, f) == Sum(s, f) + Sum(t, f)
    decreases s
  {
    if s == {} {
      assert s + t == t;
    } else {
      var x :| x in s;
      SumRemove(s, f, x);
      SumRemove(s + t, f, x);
      assert s + t - {x} == (s - {x}) + t;
      SumUnion(s - {x}, t, f);
    }
  }

  /** Reindexing a sum along a bijection. */
  lemma {:induction false} SumBijection<A(!new), B(!new)>(s: set<A>, t: set<B>, h: A -> B, f: A -> int, f': B -> int)
    requires forall a :: a in s ==> h(a) in t && f(a) == f'(h(a))
    requires forall a, a' :: a in s && a' in s && h(a) == h(a') ==> a == a'
    requires forall b :: b in t ==> exists a :: a in s && h(a) == b
    ensures Sum(s, f) == Sum(t, f')
    decreases s
  {
    if s == {} {
      assert t == {};
    } else {
      var x :| x in s;
      SumRemove(s, f, x);
      SumRemove(t, f', h(x));
      SumBijection(s - {x}, t - {h(x)}, h, f, f');
    }
  }

  ghost function Related<A, B>(a: A, t: set<B>, r: (A, B) -> bool): set<B> {
    set b | b in t && r(a, b)
  }

  ghost function CoRelated<A, B>(b: B, s: set<A>, r: (A, B) -> bool): set<A> {
    set a | a in s && r(a, b)
  }

  lemma RelatedStep<A(!new), B(!new)>(a: A, y: B, s: set<A>, t: set<B>, r: (A, B) -> bool, f: B -> int)
    requires a in s && y in t
    ensures Sum(Related(a, t, r), f)
            == Sum(Related(a, t - {y}, r), f) + (if a in CoRelated(y, s, r) then f(y) else 0)
  {
    var full, part := Related(a, t, r), Related(a, t - {y}, r);
    if r(a, y) {
      SumRemove(full, f, y);
      assert full - {y} == part;
    } else {
      assert full == part;
    }
  }

  function Times(m: nat, k: int): int {
    m * k
  }

  lemma TimesSuccessor(m: nat, k: int)
    ensures Times(m + 1, k) == Times(m, k) + k
  {
  }

  lemma {:induction false} SumIndicator<A(!new)>(s: set<A>, hit: set<A>, f: A -> int, f': A -> int, k: int)
    requires hit <= s
    requires forall a :: a in s ==> f'(a) == f(a) + (if a in hit then k else 0)
    ensures Sum(s, f') == Sum(s, f) + Times(|hit|, k)
    decreases s
  {
    if s != {} {
      var x :| x in s;
      SumRemove(s, f, x);
      SumRemove(s, f', x);
      SumIndicator(s - {x}, hit - {x}, f, f', k);
      if x in hit {
        assert |hit| == |hit - {x}| + 1;
        TimesSuccessor(|hit - {x}|, k);
      } else {
        assert hit - {x} == hit;
      }
    } else {
      assert hit == {};
    }
  }

  /** Exchange of the order of summation: summing f(b) over all related pairs, by a or by b. */
  lemma {:induction false} SumExchange<A(!new), B(!new)>(s: set<A>, t: set<B>, r: (A, B) -> bool, f: B -> int,
                                                         byA: A -> int, byB: B -> int)
    requires forall a :: a in s ==> byA(a) == Sum(Related(a, t, r), f)
    requires forall b :: b in t ==> byB(b) == Times(|CoRelated(b, s, r)|, f(b))
    ensures Sum(s, byA) == Sum(t, byB)
    decreases t
  {
    if t == {} {
      SumConstant(s, byA, 0);
    } else {
      var y :| y in t;
      var t' := t - {y};
      var byA' := a => Sum(Related(a, t', r), f);
      SumExchange(s, t', r, f, byA', byB);
      forall a | a in s
        ensures byA(a) == byA'(a) + (if a in CoRelated(y, s, r) then f(y) else 0)
      {
        RelatedStep(a, y, s, t, r, f);
      }
      SumIndicator(s, CoRelated(y, s, r), byA', byA, f(y));
      SumRemove(t, byB, y);
    }
  }

  /** Double counting of a relation. */
  lemma DoubleCount<A(!new), B(!new)>(s: set<A>, t: set<B>, r: (A, B) -> bool, byA: A -> int, byB: B -> int)
    requires forall a :: a in s ==> byA(a) == |Related(a, t, r)|
    requires forall b :: b in t ==> byB(b) == |CoRelated(b, s, r)|
    ensures Sum(s, byA) == Sum(t, byB)
  {
    var one := (b: B) => 1;
    forall a | a in s ensures byA(a) == Sum(Related(a, t, r), one) {
      SumConstant(Related(a, t, r), one, 1);
    }
    SumExchange(s, t, r, one, byA, byB);
  }

  lemma {:induction false} SumAdd<A(!new)>(s: set<A>, f: A -> int, g: A -> int, both: A -> int)
    requires forall a :: a in s ==> both(a) == f(a) + g(a)
    ensures Sum(s, both) == Sum(s, f) + Sum(s, g)
    decreases s
  {
    if s != {} {
      var x :| x in s;
      SumRemove(s, f, x);
      SumRemove(s, g, x);
      SumRemove(s, both, x);
      SumAdd(s - {x}, f, g, both);
    }
  }

  lemma {:induction false} SumAtLeast<A(!new)>(s: set<A>, f: A -> int, k: int)
    requires forall x :: x in s ==> f(x) >= k
    ensures Sum(s, f) >= k * |s|
  {
    if s != {} {
      var x :| x in s;
      SumRemove(s, f, x);
      SumAtLeast(s - {x}, f, k);
      assert k * |s| == k * (|s| - 1) + k;
    }
  }

  /** A part adds up to no more than the whole. */
  lemma SumOfPart<A(!new)>(s: set<A>, part: set<A>, f: A -> int)
    requires part <= s && forall x :: x in s ==> f(x) >= 0
    ensures Sum(part, f) <= Sum(s, f)
  {
    SumUnion(part, s - part, f);
    assert part + (s - part) == s;
    SumAtLeast(s - part, f, 0);
  }

  /** A sum whose terms are zero outside a part is the sum over that part. */
  lemma SumOverPart<A(!new)>(s: set<A>, part: set<A>, f: A -> int)
    requires part <= s && forall a :: a in s && a !in part ==> f(a) == 0
    ensures Sum(s, f) == Sum(part, f)
  {
    SumUnion(part, s - part, f);
    SumConstant(s - part, f, 0);
    assert s == part + (s - part);
  }

  lemma SumOfTwo<A(!new)>(x: A, y: A, f: A -> int)
    requires x != y
    ensures Sum({x, y}, f) == f(x) + f(y)
  {
    SumRemove({x, y}, f, x);
    assert {x, y} - {x} == {y};
    SumRemove({y}, f, y);
    assert {y} - {y} == {};
  }

  ghost function RowOf<A(!new), B(!new)>(w: (A, B) -> int, a: A): B -> int {
    b => w(a, b)
  }

  ghost function ColumnOf<A(!new), B(!new)>(w: (A, B) -> int, b: B): A -> int {
    a => w(a, b)
  }

  /** A table may be added up by rows or by columns. */
  lemma {:induction false} SumSwap<A(!new), B(!new)>(s: set<A>, t: set<B>, w: (A, B) -> int,
                                                     byA: A -> int, byB: B -> int)
    requires forall a :: a in s ==> byA(a) == Sum(t, RowOf(w, a))
    requires forall b :: b in t ==> byB(b) == Sum(s, ColumnOf(w, b))
    ensures Sum(s, byA) == Sum(t, byB)
    decreases t
  {
    if t == {} {
      SumConstant(s, byA, 0);
    } else {
      var y :| y in t;
      var byA' := a => Sum(t - {y}, RowOf(w, a));
      SumSwap(s, t - {y}, w, byA', byB);
      forall a | a in s ensures byA(a) == byA'(a) + ColumnOf(w, y)(a) {
        SumRemove(t, RowOf(w, a), y);
      }
      SumAdd(s, byA', ColumnOf(w, y), byA);
      SumRemove(t, byB, y);
    }
  }

  /** A map that undoes itself and leads between the two parts of a set makes them equally large. */
  lemma Halves<A(!new)>(all: set<A>, some: set<A>, h: A -> A)
    requires some <= all && forall a :: a in all ==> h(a) in all && h(h(a)) == a && (h(a) in some <==> a !in some)
    ensures |all| == 2 * |some|
  {
    forall b | b in all - some ensures exists a :: a in some && h(a) == b {
      assert h(h(b)) == b && h(b) in some;
    }
    forall a, a' | a in some && a' in some && h(a) == h(a') ensures a == a' {
      assert h(h(a)) == a && h(h(a')) == a';
    }
    BijectionCard(some, all - some, h);
    assert all == some + (all - some);
  }

  predicate IsNat(x: int) {
    0 <= x
  }

  /** The naturals below n. */
  function Below(n: nat): set<nat> {
    set x: nat {:trigger IsNat(x)} | 0 <= x < n
  }

  lemma {:induction false} BelowCard(n: nat)
    ensures |Below(n)| == n
  {
    if n > 0 {
      BelowCard(n - 1);
      assert Below(n) == Below(n - 1) + {n - 1};
    }
  }

  lemma FullSubset<A>(s: set<A>, t: set<A>)
    requires s <= t && |s| == |t|
    ensures s == t
  {
    assert |t| == |s| + |t - s|;
    assert t - s == {};
  }

  ghost function WithElement<A(!new)>(small: set<set<A>>, x: A): set<set<A>> {
    set t | t in small :: t + {x}
  }

  lemma SubsetsStep<A(!new)>(s: set<A>, x: A, small: set<set<A>>)
    requires x in s && forall t :: t in small <==> t <= s - {x}
    ensures forall t :: t in small + WithElement(small, x) <==> t <= s
  {
    forall t | t <= s ensures t in small + WithElement(small, x) {
      if x in t {
        assert t - {x} in small && t == t - {x} + {x};
      } else {
        assert t <= s - {x};
      }
    }
    forall t | t in small + WithElement(small, x) ensures t <= s {
      if t !in small {
        var u :| u in small && t == u + {x};
        assert u <= s - {x};
      }
    }
  }

  /** All subsets of a finite set. */
  ghost function Subsets<A(!new)>(s: set<A>): (ss: set<set<A>>)
    ensures forall t :: t in ss <==> t <= s
    decreases s
  {
    if s == {} then
      assert forall t: set<A> :: t <= s ==> t == {};
      {{}}
    else
      var x :| x in s;
      var small := Subsets(s - {x});
      SubsetsStep(s, x, small);
      small + WithElement(small, x)
  }

  predicate NoDuplicates<A(==)>(s: seq<A>) {
    forall i, j :: 0 <= i < j < |s| ==> s[i] != s[j]
  }

  function Elements<A>(s: seq<A>): set<A> {
    set a | a in s
  }

  lemma NoElements<A>(s: seq<A>)
    ensures Elements(s) == {} <==> s == []
  {
    if |s| > 0 {
      assert s[0] in Elements(s);
    }
  }

  lemma ElementsMember<A>(s: seq<A>, x: A)
    ensures x in Elements(s) <==> x in s
  {
  }

  lemma {:induction false} NoDuplicatesCard<A>(s: seq<A>)
    requires NoDuplicates(s)
    ensures |Elements(s)| == |s|
  {
    if s != [] {
      var front, last := s[..|s| - 1], s[|s| - 1];
      NoDuplicatesCard(front);
      assert Elements(s) == Elements(front) + {last};
    }
  }

  lemma NoDuplicatesConcat<A>(s: seq<A>, t: seq<A>)
    requires NoDuplicates(s) && NoDuplicates(t)
    requires forall a :: a in s ==> a !in t
    ensures NoDuplicates(s + t)
  {
    forall i, j | 0 <= i < j < |s + t| ensures (s + t)[i] != (s + t)[j] {
      if i < |s| <= j {
        assert s[i] in s && t[j - |s|] in t;
      }
    }
  }

  /** The elements of s satisfying p, in order. */
  function Filter<A>(s: seq<A>, p: A -> bool): seq<A> {
    if s == [] then []
    else Filter(s[..|s| - 1], p) + (if p(s[|s| - 1]) then [s[|s| - 1]] else [])
  }

  lemma {:induction false} FilterMembers<A>(s: seq<A>, p: A -> bool)
    ensures forall a :: a in Filter(s, p) <==> a in s && p(a)
  {
    if s != [] {
      FilterMembers(s[..|s| - 1], p);
      assert s == s[..|s| - 1] + [s[|s| - 1]];
    }
  }

  lemma {:induction false} FilterNoDuplicates<A>(s: seq<A>, p: A -> bool)
    requires NoDuplicates(s)
    ensures NoDuplicates(Filter(s, p))
  {
    if s != [] {
      FilterNoDuplicates(s[..|s| - 1], p);
      FilterMembers(s[..|s| - 1], p);
    }
  }

  lemma FilterNone<A>(s: seq<A>, p: A -> bool)
    ensures Filter(s[..0], p) == []
  {
  }

  lemma FilterStep<A>(s: seq<A>, p: A -> bool, i: nat)
    requires i < |s|
    ensures Filter(s[..i + 1], p) == Filter(s[..i], p) + (if p(s[i]) then [s[i]] else [])
  {
    assert s[..i + 1][..i] == s[..i];
  }

  lemma {:induction false} FilterPrefix<A>(s: seq<A>, p: A -> bool, i: nat)
    requires i <= |s|
    ensures |Filter(s[..i], p)| <= |Filter(s, p)|
    decreases |s| - i
  {
    if i == |s| {
      assert s[..i] == s;
    } else {
      FilterStep(s, p, i);
      FilterPrefix(s, p, i + 1);
    }
  }

  /** The sequences of length k over s. */
  ghost function Seqs(s: set<nat>, k: nat): set<seq<nat>> {
    if k == 0 then {[]} else set e: seq<nat>, d: nat | e in Seqs(s, k - 1) && d in s :: e + [d]
  }

  lemma {:induction false} SeqsMembers(s: set<nat>, k: nat)
    ensures forall e: seq<nat> :: e in Seqs(s, k) <==> |e| == k && forall i :: 0 <= i < k ==> e[i] in s
  {
    if k > 0 {
      SeqsMembers(s, k - 1);
      forall e: seq<nat> | |e| == k && forall i :: 0 <= i < k ==> e[i] in s ensures e in Seqs(s, k) {
        assert e[..k - 1] in Seqs(s, k - 1);
        assert e == e[..k - 1] + [e[k - 1]];
      }
    }
  }

  /** The orderings of s. */
  ghost function Orderings(s: set<nat>): set<seq<nat>> {
    set p | p in Seqs(s, |s|) && NoDuplicates(p) && Elements(p) == s
  }

  lemma OrderingsMember(s: set<nat>, p: seq<nat>)
    ensures p in Orderings(s) <==> NoDuplicates(p) && Elements(p) == s
  {
    SeqsMembers(s, |s|);
    if NoDuplicates(p) && Elements(p) == s {
      NoDuplicatesCard(p);
      forall i | 0 <= i < |p| ensures p[i] in s {
        assert p[i] in Elements(p);
      }
      assert |p| == |s|;
      assert p in Seqs(s, |s|);
    }
  }

  function Factorial(n: nat): nat {
    if n == 0 then 1 else Factorial(n - 1) * n
  }

  function Last(p: seq<nat>): nat {
    if p == [] then 0 else p[|p| - 1]
  }

  ghost function EndingIn(s: set<nat>, a: nat): set<seq<nat>> {
    set p | p in Orderings(s) && Last(p) == a
  }

  lemma AppendOrders(s: set<nat>, a: nat, p: seq<nat>)
    requires a in s && p in Orderings(s - {a})
    ensures p + [a] in EndingIn(s, a)
  {
    OrderingsMember(s - {a}, p);
    OrderingsMember(s, p + [a]);
    assert Elements(p + [a]) == Elements(p) + {a};
    assert a !in Elements(p);
    NoDuplicatesConcat(p, [a]);
  }

  lemma FrontOrders(s: set<nat>, a: nat, q: seq<nat>)
    requires q in EndingIn(s, a)
    ensures a in s ==> q != [] && q == q[..|q| - 1] + [a] && q[..|q| - 1] in Orderings(s - {a})
  {
    OrderingsMember(s, q);
    if a in s {
      assert a in Elements(q);
      var p := q[..|q| - 1];
      OrderingsMember(s - {a}, p);
      assert q == p + [a];
      assert a !in p;
      assert Elements(q) == Elements(p) + {a};
      assert Elements(p) == s - {a};
    }
  }

  lemma EndingInCard(s: set<nat>, a: nat)
    requires a in s
    ensures |EndingIn(s, a)| == |Orderings(s - {a})|
  {
    hide *;
    var h := (p: seq<nat>) => p + [a];
    forall p | p in Orderings(s - {a}) ensures h(p) in EndingIn(s, a) {
      AppendOrders(s, a, p);
    }
    forall p, p' | p in Orderings(s - {a}) && p' in Orderings(s - {a}) && h(p) == h(p') ensures p == p' {
      assert h(p)[..|p|] == p && h(p')[..|p'|] == p';
    }
    forall q: seq<nat> | q in EndingIn(s, a) ensures exists p: seq<nat> :: p in Orderings(s - {a}) && h(p) == q {
      FrontOrders(s, a, q);
      assert h(q[..|q| - 1]) == q;
    }
    BijectionCard(Orderings(s - {a}), EndingIn(s, a), h);
  }

  lemma LastOfOrdering(s: set<nat>, p: seq<nat>)
    requires s != {} && p in Orderings(s)
    ensures Last(p) in s
  {
    OrderingsMember(s, p);
    var x :| x in s;
    assert x in Elements(p);
    assert p[|p| - 1] in Elements(p);
  }

  lemma OneOrderingOfNone()
    ensures |Orderings({})| == 1
  {
    forall p: seq<nat> ensures p in Orderings({}) <==> p == [] {
      OrderingsMember({}, p);
      if p != [] {
        assert p[0] in Elements(p);
      }
    }
    assert Orderings({}) == {[]};
  }

  /** A set of n elements has n! orderings. */
  lemma {:induction false} OrderingsCard(s: set<nat>)
    ensures |Orderings(s)| == Factorial(|s|)
    decreases s
  {
    if s == {} {
      OneOrderingOfNone();
    } else {
      hide Orderings;
      forall a | a in s ensures |Fibre(Orderings(s), Last, a)| == Factorial(|s| - 1) {
        OrderingsCard(s - {a});
        EndingInCard(s, a);
        assert EndingIn(s, a) == Fibre(Orderings(s), Last, a);
      }
      forall p | p in Orderings(s) ensures Last(p) in s {
        LastOfOrdering(s, p);
      }
      FibreCard(Orderings(s), s, Last, Factorial(|s| - 1));
    }
  }

  function Pow(b: nat, e: nat): nat {
    if e == 0 then 1 else b * Pow(b, e - 1)
  }

  /** The naturals below n, in order. */
  function Ascending(n: nat): seq<nat> {
    seq(n, i requires 0 <= i => i)
  }

  lemma AscendingStep(i: nat)
    ensures Ascending(i + 1) == Ascending(i) + [i] && |Ascending(i)| == i
  {
  }
}
