/** Intersection of sorted vertex lists: scalar merge, blocked (SIMD) merges and galloping
    (sansa/src/common/intersect.cc, sansa/include/VertexSet.h:48-76). */
module Intersect {
  import opened Counting
  import opened CsrGraph

  /** out is the sorted intersection of l and r. */
  ghost predicate IsIntersection(l: seq<nat>, r: seq<nat>, out: seq<nat>) {
    StrictlyIncreasing(out) && forall x :: x in out <==> x in l && x in r
  }

  /** Sorted intersections are unique. */
  lemma IntersectionUnique(l: seq<nat>, r: seq<nat>, a: seq<nat>, b: seq<nat>)
    requires IsIntersection(l, r, a) && IsIntersection(l, r, b)
    ensures a == b
  {
    SameElementsSameList(a, b);
  }

  // ---------- The common invariant ----------

  ghost predicate Common(l: seq<nat>, r: seq<nat>, i: int, j: int, x: nat) {
    0 <= i < |l| && 0 <= j < |r| && l[i] == x && r[j] == x
  }

  /** out holds exactly the common elements found before position li of l or before position ri of r. */
  ghost predicate Merged(l: seq<nat>, r: seq<nat>, li: nat, ri: nat, out: seq<nat>) {
    && StrictlyIncreasing(l) && StrictlyIncreasing(r) && StrictlyIncreasing(out)
    && li <= |l| && ri <= |r|
    && (forall x :: x in out ==> exists i, j :: Common(l, r, i, j, x) && (i < li || j < ri))
    && (forall i, j, x :: Common(l, r, i, j, x) && (i < li || j < ri) ==> x in out)
  }

  lemma MergedStart(l: seq<nat>, r: seq<nat>)
    requires StrictlyIncreasing(l) && StrictlyIncreasing(r)
    ensures Merged(l, r, 0, 0, [])
  {
  }

  lemma MergedEnd(l: seq<nat>, r: seq<nat>, li: nat, ri: nat, out: seq<nat>)
    requires Merged(l, r, li, ri, out) && (li == |l| || ri == |r|)
    ensures IsIntersection(l, r, out)
  {
    forall x ensures x in out <==> x in l && x in r {
      if x in l && x in r {
        var i :| 0 <= i < |l| && l[i] == x;
        var j :| 0 <= j < |r| && r[j] == x;
        assert Common(l, r, i, j, x);
      }
      if x in out {
        var i, j :| Common(l, r, i, j, x) && (i < li || j < ri);
      }
    }
  }

  /** The elements of l below r[ri] from li on are not common. */
  lemma SkipLeft(l: seq<nat>, r: seq<nat>, li: nat, ri: nat, out: seq<nat>, li': nat)
    requires Merged(l, r, li, ri, out) && li <= li' <= |l| && ri < |r|
    requires forall i :: li <= i < li' ==> l[i] < r[ri]
    ensures Merged(l, r, li', ri, out)
  {
  }

  lemma SkipRight(l: seq<nat>, r: seq<nat>, li: nat, ri: nat, out: seq<nat>, ri': nat)
    requires Merged(l, r, li, ri, out) && ri <= ri' <= |r| && li < |l|
    requires forall j :: ri <= j < ri' ==> r[j] < l[li]
    ensures Merged(l, r, li, ri', out)
  {
  }

  /** Appending elements found at or after (li, ri) keeps the output sorted. */
  lemma AppendSorted(l: seq<nat>, r: seq<nat>, li: nat, ri: nat, out: seq<nat>, i: nat, j: nat)
    requires Merged(l, r, li, ri, out) && li <= i < |l| && ri <= j && Common(l, r, i, j, l[i])
    ensures forall x :: x in out ==> x < l[i]
  {
    forall x | x in out ensures x < l[i] {
      var i', j' :| Common(l, r, i', j', x) && (i' < li || j' < ri);
    }
  }

  lemma Match(l: seq<nat>, r: seq<nat>, li: nat, ri: nat, out: seq<nat>)
    requires Merged(l, r, li, ri, out) && li < |l| && ri < |r| && l[li] == r[ri]
    ensures Merged(l, r, li + 1, ri + 1, out + [l[li]])
  {
    var out' := out + [l[li]];
    assert Common(l, r, li, ri, l[li]);
    AppendSorted(l, r, li, ri, out, li, ri);
    AppendIncreasing(out, l[li]);
    forall x | x in out' ensures exists i, j :: Common(l, r, i, j, x) && (i < li + 1 || j < ri + 1) {
      if x in out {
        var i, j :| Common(l, r, i, j, x) && (i < li || j < ri);
      }
    }
  }

  // ---------- Blocks ----------

  ghost function InBlock(r: seq<nat>, ri: nat, br: nat): nat -> bool
    requires ri + br <= |r|
  {
    (x: nat) => x in r[ri..ri + br]
  }

  /** What a vector comparison of l[li..li+bl) with r[ri..ri+br) finds, in lane order. */
  ghost function Found(l: seq<nat>, r: seq<nat>, li: nat, ri: nat, bl: nat, br: nat): seq<nat>
    requires li + bl <= |l| && ri + br <= |r|
  {
    Filter(l[li..li + bl], InBlock(r, ri, br))
  }

  ghost predicate FoundAt(l: seq<nat>, r: seq<nat>, li: nat, ri: nat, bl: nat, br: nat, i: int, j: int, x: nat) {
    li <= i < li + bl && ri <= j < ri + br && Common(l, r, i, j, x)
  }

  lemma FoundMembers(l: seq<nat>, r: seq<nat>, li: nat, ri: nat, bl: nat, br: nat, x: nat)
    requires li + bl <= |l| && ri + br <= |r|
    ensures x in Found(l, r, li, ri, bl, br) <==> exists i, j :: FoundAt(l, r, li, ri, bl, br, i, j, x)
  {
    FilterMembers(l[li..li + bl], InBlock(r, ri, br));
    if x in Found(l, r, li, ri, bl, br) {
      var i :| 0 <= i < bl && l[li..li + bl][i] == x;
      var j :| 0 <= j < br && r[ri..ri + br][j] == x;
      assert FoundAt(l, r, li, ri, bl, br, li + i, ri + j, x);
    }
    if exists i, j :: FoundAt(l, r, li, ri, bl, br, i, j, x) {
      var i, j :| FoundAt(l, r, li, ri, bl, br, i, j, x);
      assert l[li..li + bl][i - li] == x && r[ri..ri + br][j - ri] == x;
    }
  }

  lemma FoundSorted(l: seq<nat>, r: seq<nat>, li: nat, ri: nat, bl: nat, br: nat, out: seq<nat>)
    requires li + bl <= |l| && ri + br <= |r| && Merged(l, r, li, ri, out)
    ensures StrictlyIncreasing(out + Found(l, r, li, ri, bl, br))
  {
    var found := Found(l, r, li, ri, bl, br);
    FilterIncreasing(l[li..li + bl], InBlock(r, ri, br));
    forall a, b | 0 <= a < |out| && 0 <= b < |found| ensures out[a] < found[b] {
      assert found[b] in found;
      FoundMembers(l, r, li, ri, bl, br, found[b]);
      var i, j :| FoundAt(l, r, li, ri, bl, br, i, j, found[b]);
      AppendSorted(l, r, li, ri, out, i, j);
      assert out[a] in out;
    }
  }

  /** After a block comparison: whichever side's block ends first (or both) may be passed. */
  lemma BlockAdvance(l: seq<nat>, r: seq<nat>, li: nat, ri: nat, bl: nat, br: nat, out: seq<nat>, li': nat, ri': nat)
    requires Merged(l, r, li, ri, out) && 0 < bl && 0 < br && li + bl <= |l| && ri + br <= |r|
    requires li' == li || li' == li + bl
    requires ri' == ri || ri' == ri + br
    requires li' == li + bl ==> l[li + bl - 1] <= r[ri + br - 1]
    requires ri' == ri + br ==> r[ri + br - 1] <= l[li + bl - 1]
    requires li' == li + bl || ri' == ri + br
    ensures Merged(l, r, li', ri', out + Found(l, r, li, ri, bl, br))
  {
    var found := Found(l, r, li, ri, bl, br);
    FoundSorted(l, r, li, ri, bl, br, out);
    forall x | x in out + found ensures exists i, j :: Common(l, r, i, j, x) && (i < li' || j < ri') {
      if x in out {
        var i, j :| Common(l, r, i, j, x) && (i < li || j < ri);
      } else {
        FoundMembers(l, r, li, ri, bl, br, x);
        var i, j :| FoundAt(l, r, li, ri, bl, br, i, j, x);
        assert Common(l, r, i, j, x) && (i < li' || j < ri');
      }
    }
    forall i, j, x | Common(l, r, i, j, x) && (i < li' || j < ri') ensures x in out + found {
      if !(i < li || j < ri) {
        assert FoundAt(l, r, li, ri, bl, br, i, j, x);
        FoundMembers(l, r, li, ri, bl, br, x);
      }
    }
  }

  // ---------- Scalar merges ----------

  /** Output never outgrows either list. */
  lemma OutputFits(l: seq<nat>, r: seq<nat>, li: nat, ri: nat, out: seq<nat>)
    requires Merged(l, r, li, ri, out)
    ensures |out| <= |l| && |out| <= |r|
  {
    NoDuplicatesCard(out);
    NoDuplicatesCard(l);
    NoDuplicatesCard(r);
    forall x | x in out ensures x in l && x in r {
      var i, j :| Common(l, r, i, j, x) && (i < li || j < ri);
    }
    SubsetCard(Elements(out), Elements(l));
    SubsetCard(Elements(out), Elements(r));
  }

  /** The plain merge of two vertex sets. */
  method MergeSets(l: seq<nat>, r: seq<nat>) returns (out: seq<nat>)
    requires StrictlyIncreasing(l) && StrictlyIncreasing(r)
    ensures IsIntersection(l, r, out)
  {
    hide *;
    out := [];
    var li: nat, ri: nat := 0, 0;
    MergedStart(l, r);
    while li < |l| && ri < |r|
      invariant li <= |l| && ri <= |r| && Merged(l, r, li, ri, out)
      decreases |l| - li + |r| - ri
    {
      var left, right := l[li], r[ri];
      if left == right {
        Match(l, r, li, ri, out);
        out := out + [left];
      } else if left < right {
        SkipLeft(l, r, li, ri, out, li + 1);
      } else {
        SkipRight(l, r, li, ri, out, ri + 1);
      }
      if left <= right {
        li := li + 1;
      }
      if right <= left {
        ri := ri + 1;
      }
    }
    MergedEnd(l, r, li, ri, out);
  }

  lemma IntersectionCard(l: seq<nat>, r: seq<nat>, out: seq<nat>)
    requires IsIntersection(l, r, out)
    ensures |out| == |Elements(l) * Elements(r)|
  {
    NoDuplicatesCard(out);
    assert Elements(out) == Elements(l) * Elements(r);
  }

  /** The same loop, counting only. */
  method CountCommon(l: seq<nat>, r: seq<nat>) returns (num: nat)
    requires StrictlyIncreasing(l) && StrictlyIncreasing(r)
    ensures num == |Elements(l) * Elements(r)|
  {
    hide *;
    num := 0;
    ghost var out := [];
    var li: nat, ri: nat := 0, 0;
    MergedStart(l, r);
    while li < |l| && ri < |r|
      invariant li <= |l| && ri <= |r| && Merged(l, r, li, ri, out) && num == |out|
      decreases |l| - li + |r| - ri
    {
      var left, right := l[li], r[ri];
      if left == right {
        Match(l, r, li, ri, out);
        out := out + [left];
        num := num + 1;
      } else if left < right {
        SkipLeft(l, r, li, ri, out, li + 1);
      } else {
        SkipRight(l, r, li, ri, out, ri + 1);
      }
      if left <= right {
        li := li + 1;
      }
      if right <= left {
        ri := ri + 1;
      }
    }
    MergedEnd(l, r, li, ri, out);
    IntersectionCard(l, r, out);
  }

  lemma MergedBounds(l: seq<nat>, r: seq<nat>, li: nat, ri: nat, out: seq<nat>)
    requires Merged(l, r, li, ri, out)
    ensures li <= |l| && ri <= |r|
  {
  }

  /** The scalar tail after a blocked merge, appending to the output buffer. */
  method MergeTail(l: seq<nat>, r: seq<nat>, li0: nat, ri0: nat, cn: array<nat>, count: nat) returns (count': nat)
    requires count <= cn.Length && Merged(l, r, li0, ri0, cn[..count])
    requires |l| <= cn.Length || |r| <= cn.Length
    modifies cn
    ensures count' <= cn.Length && IsIntersection(l, r, cn[..count'])
  {
    hide *;
    MergedBounds(l, r, li0, ri0, cn[..count]);
    var li: nat, ri: nat := li0, ri0;
    count' := count;
    if li < |l| && ri < |r| {
      while true
        invariant li < |l| && ri < |r| && count' <= cn.Length && Merged(l, r, li, ri, cn[..count'])
        decreases |l| - li + |r| - ri
      {
        while l[li] < r[ri]
          invariant li < |l| && Merged(l, r, li, ri, cn[..count'])
          decreases |l| - li
        {
          SkipLeft(l, r, li, ri, cn[..count'], li + 1);
          li := li + 1;
          if li >= |l| {
            MergedEnd(l, r, li, ri, cn[..count']);
            return;
          }
        }
        while l[li] > r[ri]
          invariant ri < |r| && Merged(l, r, li, ri, cn[..count'])
          decreases |r| - ri
        {
          SkipRight(l, r, li, ri, cn[..count'], ri + 1);
          ri := ri + 1;
          if ri >= |r| {
            MergedEnd(l, r, li, ri, cn[..count']);
            return;
          }
        }
        if l[li] == r[ri] {
          Match(l, r, li, ri, cn[..count']);
          OutputFits(l, r, li + 1, ri + 1, cn[..count'] + [l[li]]);
          ghost var out := cn[..count'];
          cn[count'] := l[li];
          assert cn[..count' + 1] == out + [l[li]];
          count' := count' + 1;
          li := li + 1;
          ri := ri + 1;
          if li >= |l| || ri >= |r| {
            MergedEnd(l, r, li, ri, cn[..count']);
            return;
          }
        }
      }
    }
    MergedEnd(l, r, li, ri, cn[..count']);
  }

  // ---------- Blocked merges ----------

  lemma FoundOne(l: seq<nat>, r: seq<nat>, li: nat, ri: nat, w: nat)
    requires li < |l| && ri + w <= |r|
    ensures Found(l, r, li, ri, 1, w) == if l[li] in r[ri..ri + w] then [l[li]] else []
  {
    var one, p := l[li..li + 1], InBlock(r, ri, w);
    assert one == [l[li]];
    FilterNone(one, p);
    FilterStep(one, p, 0);
    assert one[..1] == one;
  }

  /** One element of l against w of r at a time: the broadcast-and-compare loop of the vectorised merges. */
  method MergeOneByBlock(l: seq<nat>, r: seq<nat>, w: nat, cn: array<nat>)
    returns (li: nat, ri: nat, count: nat)
    requires StrictlyIncreasing(l) && StrictlyIncreasing(r) && w > 0
    requires |l| <= cn.Length || |r| <= cn.Length
    modifies cn
    ensures count <= cn.Length && Merged(l, r, li, ri, cn[..count])
  {
    hide *;
    li, ri, count := 0, 0, 0;
    MergedStart(l, r);
    assert cn[..0] == [];
    if li < |l| && ri + w - 1 < |r| {
      while true
        invariant li < |l| && ri + w <= |r| && count <= cn.Length && Merged(l, r, li, ri, cn[..count])
        decreases |l| - li + |r| - ri
      {
        ghost var out := cn[..count];
        FoundOne(l, r, li, ri, w);
        if l[li] > r[ri + w - 1] {
          BlockAdvance(l, r, li, ri, 1, w, out, li, ri + w);
          OutputFits(l, r, li, ri + w, out + Found(l, r, li, ri, 1, w));
        } else {
          BlockAdvance(l, r, li, ri, 1, w, out, li + 1, ri);
          OutputFits(l, r, li + 1, ri, out + Found(l, r, li, ri, 1, w));
        }
        if l[li] in r[ri..ri + w] {
          cn[count] := l[li];
          count := count + 1;
        }
        assert cn[..count] == out + Found(l, r, li, ri, 1, w);
        if l[li] > r[ri + w - 1] {
          ri := ri + w;
          if ri + w - 1 >= |r| {
            break;
          }
        } else {
          li := li + 1;
          if li >= |l| {
            break;
          }
        }
      }
    }
  }

  /** The lanes of one block comparison that match are written out in order. */
  method WriteFound(l: seq<nat>, r: seq<nat>, li: nat, ri: nat, bl: nat, br: nat, cn: array<nat>, count: nat)
    returns (count': nat)
    requires li + bl <= |l| && ri + br <= |r|
    requires count + |Found(l, r, li, ri, bl, br)| <= cn.Length
    modifies cn
    ensures count' == count + |Found(l, r, li, ri, bl, br)| <= cn.Length
    ensures cn[..count'] == old(cn[..count]) + Found(l, r, li, ri, bl, br)
  {
    ghost var lanes, p := l[li..li + bl], InBlock(r, ri, br);
    count' := count;
    FilterNone(lanes, p);
    for lane := 0 to bl
      invariant count' == count + |Filter(lanes[..lane], p)| <= cn.Length
      invariant cn[..count'] == old(cn[..count]) + Filter(lanes[..lane], p)
    {
      FilterStep(lanes, p, lane);
      FilterPrefix(lanes, p, lane + 1);
      ghost var out := cn[..count'];
      assert lanes[lane] == l[li + lane];
      if l[li + lane] in r[ri..ri + br] {
        cn[count'] := l[li + lane];
        count' := count' + 1;
        assert cn[..count'] == out + [l[li + lane]];
      }
    }
    assert lanes[..bl] == lanes;
  }

  /** bl elements of l against br of r at a time: the all-pairs loop of the vectorised merges. */
  method MergeBlocks(l: seq<nat>, r: seq<nat>, bl: nat, br: nat, cn: array<nat>)
    returns (li: nat, ri: nat, count: nat)
    requires StrictlyIncreasing(l) && StrictlyIncreasing(r) && bl > 0 && br > 0
    requires |l| <= cn.Length || |r| <= cn.Length
    modifies cn
    ensures count <= cn.Length && Merged(l, r, li, ri, cn[..count])
  {
    hide *;
    li, ri, count := 0, 0, 0;
    MergedStart(l, r);
    assert cn[..0] == [];
    if li + bl - 1 < |l| && ri + br - 1 < |r| {
      while true
        invariant li + bl <= |l| && ri + br <= |r| && count <= cn.Length && Merged(l, r, li, ri, cn[..count])
        decreases |l| - li + |r| - ri
      {
        ghost var out := cn[..count];
        ghost var li' := if l[li + bl - 1] <= r[ri + br - 1] then li + bl else li;
        ghost var ri' := if r[ri + br - 1] <= l[li + bl - 1] then ri + br else ri;
        BlockAdvance(l, r, li, ri, bl, br, out, li', ri');
        OutputFits(l, r, li', ri', out + Found(l, r, li, ri, bl, br));
        count := WriteFound(l, r, li, ri, bl, br, cn, count);
        if l[li + bl - 1] == r[ri + br - 1] {
          li := li + bl;
          ri := ri + br;
          if li + bl - 1 >= |l| || ri + br - 1 >= |r| {
            break;
          }
        } else if l[li + bl - 1] > r[ri + br - 1] {
          ri := ri + br;
          if ri + br - 1 >= |r| {
            break;
          }
        } else {
          li := li + bl;
          if li + bl - 1 >= |l| {
            break;
          }
        }
      }
    }
  }

  /** A blocked merge: the shorter list leads; very uneven lists take the one-by-w loop, others the bl-by-br loop;
      what is left goes through the scalar merge. AVX2 is w = 8, bl = 2, br = 4; AVX512 is w = 16, bl = br = 4. */
  method ComputeMergeBased(larray: seq<nat>, rarray: seq<nat>, w: nat, bl: nat, br: nat, cn: array<nat>)
    returns (count: nat)
    requires StrictlyIncreasing(larray) && StrictlyIncreasing(rarray) && w > 0 && bl > 0 && br > 0
    requires |larray| <= cn.Length || |rarray| <= cn.Length
    modifies cn
    ensures count <= cn.Length && IsIntersection(larray, rarray, cn[..count])
  {
    count := 0;
    if |larray| == 0 || |rarray| == 0 {
      return;
    }
    var l, r := larray, rarray;
    if |l| > |r| {
      l, r := rarray, larray;
    }
    var li, ri, found;
    if |r| / |l| > 2 {
      li, ri, found := MergeOneByBlock(l, r, w, cn);
    } else {
      li, ri, found := MergeBlocks(l, r, bl, br, cn);
    }
    count := MergeTail(l, r, li, ri, cn, found);
  }

  method ComputeMergeBasedAVX2(larray: seq<nat>, rarray: seq<nat>, cn: array<nat>) returns (count: nat)
    requires StrictlyIncreasing(larray) && StrictlyIncreasing(rarray)
    requires |larray| <= cn.Length || |rarray| <= cn.Length
    modifies cn
    ensures count <= cn.Length && IsIntersection(larray, rarray, cn[..count])
  {
    count := ComputeMergeBased(larray, rarray, 8, 2, 4, cn);
  }

  method ComputeMergeBasedAVX512(larray: seq<nat>, rarray: seq<nat>, cn: array<nat>) returns (count: nat)
    requires StrictlyIncreasing(larray) && StrictlyIncreasing(rarray)
    requires |larray| <= cn.Length || |rarray| <= cn.Length
    modifies cn
    ensures count <= cn.Length && IsIntersection(larray, rarray, cn[..count])
  {
    count := ComputeMergeBased(larray, rarray, 16, 4, 4, cn);
  }

  // ---------- The counting variants ----------

  method CountOneByBlock(l: seq<nat>, r: seq<nat>, w: nat) returns (li: nat, ri: nat, count: nat, ghost out: seq<nat>)
    requires StrictlyIncreasing(l) && StrictlyIncreasing(r) && w > 0
    ensures Merged(l, r, li, ri, out) && count == |out|
  {
    hide *;
    li, ri, count, out := 0, 0, 0, [];
    MergedStart(l, r);
    if li < |l| && ri + w - 1 < |r| {
      while true
        invariant li < |l| && ri + w <= |r| && Merged(l, r, li, ri, out) && count == |out|
        decreases |l| - li + |r| - ri
      {
        FoundOne(l, r, li, ri, w);
        if l[li] > r[ri + w - 1] {
          BlockAdvance(l, r, li, ri, 1, w, out, li, ri + w);
        } else {
          BlockAdvance(l, r, li, ri, 1, w, out, li + 1, ri);
        }
        if l[li] in r[ri..ri + w] {
          count := count + 1;
        }
        out := out + Found(l, r, li, ri, 1, w);
        if l[li] > r[ri + w - 1] {
          ri := ri + w;
          if ri + w - 1 >= |r| {
            break;
          }
        } else {
          li := li + 1;
          if li >= |l| {
            break;
          }
        }
      }
    }
  }

  /** How many lanes of one block comparison match. */
  method CountFound(l: seq<nat>, r: seq<nat>, li: nat, ri: nat, bl: nat, br: nat) returns (n: nat)
    requires li + bl <= |l| && ri + br <= |r|
    ensures n == |Found(l, r, li, ri, bl, br)|
  {
    ghost var lanes, p := l[li..li + bl], InBlock(r, ri, br);
    n := 0;
    FilterNone(lanes, p);
    for lane := 0 to bl
      invariant n == |Filter(lanes[..lane], p)|
    {
      FilterStep(lanes, p, lane);
      assert lanes[lane] == l[li + lane];
      if l[li + lane] in r[ri..ri + br] {
        n := n + 1;
      }
    }
    assert lanes[..bl] == lanes;
  }

  method CountBlocks(l: seq<nat>, r: seq<nat>, bl: nat, br: nat)
    returns (li: nat, ri: nat, count: nat, ghost out: seq<nat>)
    requires StrictlyIncreasing(l) && StrictlyIncreasing(r) && bl > 0 && br > 0
    ensures Merged(l, r, li, ri, out) && count == |out|
  {
    hide *;
    li, ri, count, out := 0, 0, 0, [];
    MergedStart(l, r);
    if li + bl - 1 < |l| && ri + br - 1 < |r| {
      while true
        invariant li + bl <= |l| && ri + br <= |r| && Merged(l, r, li, ri, out) && count == |out|
        decreases |l| - li + |r| - ri
      {
        ghost var li' := if l[li + bl - 1] <= r[ri + br - 1] then li + bl else li;
        ghost var ri' := if r[ri + br - 1] <= l[li + bl - 1] then ri + br else ri;
        BlockAdvance(l, r, li, ri, bl, br, out, li', ri');
        var n := CountFound(l, r, li, ri, bl, br);
        count := count + n;
        out := out + Found(l, r, li, ri, bl, br);
        if l[li + bl - 1] == r[ri + br - 1] {
          li := li + bl;
          ri := ri + br;
          if li + bl - 1 >= |l| || ri + br - 1 >= |r| {
            break;
          }
        } else if l[li + bl - 1] > r[ri + br - 1] {
          ri := ri + br;
          if ri + br - 1 >= |r| {
            break;
          }
        } else {
          li := li + bl;
          if li + bl - 1 >= |l| {
            break;
          }
        }
      }
    }
  }

  method CountTail(l: seq<nat>, r: seq<nat>, li0: nat, ri0: nat, count: nat, ghost out0: seq<nat>) returns (count': nat)
    requires Merged(l, r, li0, ri0, out0) && count == |out0|
    ensures count' == |Elements(l) * Elements(r)|
  {
    hide *;
    MergedBounds(l, r, li0, ri0, out0);
    var li: nat, ri: nat := li0, ri0;
    ghost var out := out0;
    count' := count;
    while li < |l| && ri < |r|
      invariant li <= |l| && ri <= |r| && Merged(l, r, li, ri, out) && count' == |out|
      decreases |l| - li + |r| - ri
    {
      if l[li] < r[ri] {
        SkipLeft(l, r, li, ri, out, li + 1);
        li := li + 1;
      } else if l[li] > r[ri] {
        SkipRight(l, r, li, ri, out, ri + 1);
        ri := ri + 1;
      } else {
        Match(l, r, li, ri, out);
        out := out + [l[li]];
        count' := count' + 1;
        li := li + 1;
        ri := ri + 1;
      }
    }
    MergedEnd(l, r, li, ri, out);
    IntersectionCard(l, r, out);
  }

  /** The counting blocked merge returns the size of the intersection. */
  method CountMergeBased(larray: seq<nat>, rarray: seq<nat>, w: nat, bl: nat, br: nat) returns (count: nat)
    requires StrictlyIncreasing(larray) && StrictlyIncreasing(rarray) && w > 0 && bl > 0 && br > 0
    ensures count == |Elements(larray) * Elements(rarray)|
  {
    count := 0;
    NoElements(larray);
    NoElements(rarray);
    if |larray| == 0 || |rarray| == 0 {
      assert Elements(larray) * Elements(rarray) == {};
      return;
    }
    var l, r := larray, rarray;
    if |l| > |r| {
      l, r := rarray, larray;
    }
    assert Elements(l) * Elements(r) == Elements(larray) * Elements(rarray);
    var li, ri, found; ghost var out;
    if |r| / |l| > 2 {
      li, ri, found, out := CountOneByBlock(l, r, w);
    } else {
      li, ri, found, out := CountBlocks(l, r, bl, br);
    }
    count := CountTail(l, r, li, ri, found, out);
  }

  // ---------- Galloping ----------

  /** pos is the first position of [begin, end) with a value at least target, or end. */
  ghost predicate IsLowerBound(src: seq<nat>, begin: nat, end: nat, target: nat, pos: nat) {
    && begin <= pos <= end <= |src|
    && (forall i :: begin <= i < pos ==> src[i] < target)
    && (pos < end ==> src[pos] >= target)
  }

  method BinarySearch(src: seq<nat>, begin: nat, end: nat, target: nat) returns (pos: nat)
    requires StrictlyIncreasing(src) && begin <= end <= |src|
    ensures IsLowerBound(src, begin, end, target, pos)
  {
    var offsetBegin, offsetEnd := begin, end;
    while offsetEnd - offsetBegin >= 16
      invariant begin <= offsetBegin <= offsetEnd <= end
      invariant forall i :: begin <= i < offsetBegin ==> src[i] < target
      invariant offsetEnd < end ==> src[offsetEnd] >= target
      decreases offsetEnd - offsetBegin
    {
      var mid := (offsetBegin + offsetEnd) / 2;
      if src[mid] == target {
        return mid;
      } else if src[mid] < target {
        offsetBegin := mid + 1;
      } else {
        offsetEnd := mid;
      }
    }
    for offset := offsetBegin to offsetEnd
      invariant forall i :: begin <= i < offset ==> src[i] < target
    {
      if src[offset] >= target {
        return offset;
      }
    }
    return offsetEnd;
  }

  method GallopingSearch(src: seq<nat>, begin: nat, end: nat, target: nat) returns (pos: nat)
    requires StrictlyIncreasing(src) && begin < end <= |src|
    ensures IsLowerBound(src, begin, end, target, pos)
  {
    if src[end - 1] < target {
      return end;
    }
    if src[begin] >= target {
      return begin;
    }
    if src[begin + 1] >= target {
      return begin + 1;
    }
    if src[begin + 2] >= target {
      return begin + 2;
    }
    var jump: nat := 4;
    while true
      invariant jump >= 4 && jump % 2 == 0
      invariant begin + jump / 2 < end && src[begin + jump / 2] < target
      decreases end - jump
    {
      var peek := begin + jump;
      var low := jump / 2 + begin + 1;
      assert forall i :: begin <= i < low ==> src[i] <= src[low - 1] < target;
      if peek >= end {
        pos := BinarySearch(src, low, end, target);
        return;
      }
      if src[peek] < target {
        jump := 2 * jump;
      } else if src[peek] == target {
        return peek;
      } else {
        pos := BinarySearch(src, low, peek + 1, target);
        return;
      }
    }
  }

  // ---------- Vectorised galloping ----------

  /** A vector of n elements against the target: how many lanes hold a smaller value. */
  method CountBelow(src: seq<nat>, begin: nat, n: nat, target: nat) returns (k: nat)
    requires StrictlyIncreasing(src) && begin + n <= |src|
    ensures k <= n && IsLowerBound(src, begin, begin + n, target, begin + k)
  {
    k := 0;
    for lane := 0 to n
      invariant k <= lane && IsLowerBound(src, begin, begin + lane, target, begin + k)
    {
      if src[begin + lane] < target {
        k := k + 1;
      }
    }
  }

  method BinarySearchAVX2(src: seq<nat>, begin: nat, end: nat, target: nat) returns (pos: nat)
    requires StrictlyIncreasing(src) && begin <= end <= |src|
    ensures IsLowerBound(src, begin, end, target, pos)
  {
    var offsetBegin, offsetEnd := begin, end;
    while offsetEnd - offsetBegin >= 16
      invariant begin <= offsetBegin <= offsetEnd <= end
      invariant forall i :: begin <= i < offsetBegin ==> src[i] < target
      invariant offsetEnd < end ==> src[offsetEnd] >= target
      decreases offsetEnd - offsetBegin
    {
      var mid := (offsetBegin + offsetEnd) / 2;
      if src[mid] == target {
        return mid;
      } else if src[mid] < target {
        offsetBegin := mid + 1;
      } else {
        offsetEnd := mid;
      }
    }
    while offsetBegin + 7 < offsetEnd
      invariant begin <= offsetBegin <= offsetEnd
      invariant forall i :: begin <= i < offsetBegin ==> src[i] < target
    {
      var below := CountBelow(src, offsetBegin, 8, target);
      if below != 8 {
        return offsetBegin + below;
      }
      offsetBegin := offsetBegin + 8;
    }
    if offsetBegin < offsetEnd {
      var left := offsetEnd - offsetBegin;
      var below := CountBelow(src, offsetBegin, left, target);
      if below != left {
        return offsetBegin + below;
      }
    }
    return offsetEnd;
  }

  method GallopingSearchAVX2(src: seq<nat>, begin: nat, end: nat, target: nat) returns (pos: nat)
    requires StrictlyIncreasing(src) && begin < end <= |src|
    ensures IsLowerBound(src, begin, end, target, pos)
  {
    if src[end - 1] < target {
      return end;
    }
    if end - begin >= 8 {
      var below := CountBelow(src, begin, 8, target);
      if below != 8 {
        return begin + below;
      }
    } else {
      var left := end - begin;
      var below := CountBelow(src, begin, left, target);
      if below != left {
        return begin + below;
      }
    }
    var jump: nat := 8;
    while true
      invariant jump >= 8 && jump % 2 == 0
      invariant begin + jump / 2 < end && src[begin + jump / 2] < target
      decreases end - jump
    {
      var peek := begin + jump;
      var low := jump / 2 + begin + 1;
      assert forall i :: begin <= i < low ==> src[i] <= src[low - 1] < target;
      if peek >= end {
        pos := BinarySearchAVX2(src, low, end, target);
        return;
      }
      if src[peek] < target {
        jump := 2 * jump;
      } else if src[peek] == target {
        return peek;
      } else {
        pos := BinarySearchAVX2(src, low, peek + 1, target);
        return;
      }
    }
  }

  // ---------- Galloping intersection ----------

  lemma LowerBound(src: seq<nat>, begin: nat, end: nat, target: nat, pos: nat)
    requires IsLowerBound(src, begin, end, target, pos)
    ensures begin <= pos <= end <= |src|
    ensures forall i :: begin <= i < pos ==> src[i] < target
    ensures pos < end ==> src[pos] >= target
  {
  }

  method Gallop(l: seq<nat>, r: seq<nat>, avx2: bool, cn: array<nat>) returns (count: nat)
    requires StrictlyIncreasing(l) && StrictlyIncreasing(r) && l != [] && r != []
    requires |l| <= cn.Length || |r| <= cn.Length
    modifies cn
    ensures count <= cn.Length && IsIntersection(l, r, cn[..count])
  {
    hide *;
    count := 0;
    var li: nat, ri: nat := 0, 0;
    MergedStart(l, r);
    assert cn[..0] == [];
    while true
      invariant li < |l| && ri < |r| && count <= cn.Length && Merged(l, r, li, ri, cn[..count])
      decreases |l| - li + |r| - ri
    {
      while l[li] < r[ri]
        invariant li < |l| && Merged(l, r, li, ri, cn[..count])
        decreases |l| - li
      {
        SkipLeft(l, r, li, ri, cn[..count], li + 1);
        li := li + 1;
        if li >= |l| {
          MergedEnd(l, r, li, ri, cn[..count]);
          return;
        }
      }
      var ri': nat;
      if avx2 {
        ri' := GallopingSearchAVX2(r, ri, |r|, l[li]);
      } else {
        ri' := GallopingSearch(r, ri, |r|, l[li]);
      }
      LowerBound(r, ri, |r|, l[li], ri');
      SkipRight(l, r, li, ri, cn[..count], ri');
      ri := ri';
      if ri >= |r| {
        MergedEnd(l, r, li, ri, cn[..count]);
        return;
      }
      if l[li] == r[ri] {
        Match(l, r, li, ri, cn[..count]);
        OutputFits(l, r, li + 1, ri + 1, cn[..count] + [l[li]]);
        ghost var out := cn[..count];
        cn[count] := l[li];
        assert cn[..count + 1] == out + [l[li]];
        count := count + 1;
        li := li + 1;
        ri := ri + 1;
        if li >= |l| || ri >= |r| {
          MergedEnd(l, r, li, ri, cn[..count]);
          return;
        }
      }
    }
  }

  /** The shorter list leads; avx2 tells which search is used. */
  method ComputeGalloping(larray: seq<nat>, rarray: seq<nat>, avx2: bool, cn: array<nat>) returns (count: nat)
    requires StrictlyIncreasing(larray) && StrictlyIncreasing(rarray)
    requires |larray| <= cn.Length || |rarray| <= cn.Length
    modifies cn
    ensures count <= cn.Length && IsIntersection(larray, rarray, cn[..count])
  {
    count := 0;
    if |larray| == 0 || |rarray| == 0 {
      return;
    }
    var l, r := larray, rarray;
    if |l| > |r| {
      l, r := rarray, larray;
    }
    count := Gallop(l, r, avx2, cn);
  }

  // ---------- The choice of kernel ----------

  method MergeInStep(l: seq<nat>, r: seq<nat>, cn: array<nat>) returns (count: nat)
    requires StrictlyIncreasing(l) && StrictlyIncreasing(r) && l != [] && r != []
    requires |l| <= cn.Length || |r| <= cn.Length
    modifies cn
    ensures count <= cn.Length && IsIntersection(l, r, cn[..count])
  {
    hide *;
    count := 0;
    var li: nat, ri: nat := 0, 0;
    MergedStart(l, r);
    assert cn[..0] == [];
    while li < |l| && ri < |r|
      invariant li <= |l| && ri <= |r| && count <= cn.Length && Merged(l, r, li, ri, cn[..count])
      decreases |l| - li + |r| - ri
    {
      if l[li] < r[ri] {
        SkipLeft(l, r, li, ri, cn[..count], li + 1);
        li := li + 1;
      } else if l[li] > r[ri] {
        SkipRight(l, r, li, ri, cn[..count], ri + 1);
        ri := ri + 1;
      } else {
        Match(l, r, li, ri, cn[..count]);
        OutputFits(l, r, li + 1, ri + 1, cn[..count] + [l[li]]);
        ghost var out := cn[..count];
        cn[count] := l[li];
        assert cn[..count + 1] == out + [l[li]];
        count := count + 1;
        li := li + 1;
        ri := ri + 1;
      }
    }
    MergedEnd(l, r, li, ri, cn[..count]);
  }

  /** The sequential merge. */
  method StdMerge(larray: seq<nat>, rarray: seq<nat>, cn: array<nat>) returns (count: nat)
    requires StrictlyIncreasing(larray) && StrictlyIncreasing(rarray)
    requires |larray| <= cn.Length || |rarray| <= cn.Length
    modifies cn
    ensures count <= cn.Length && IsIntersection(larray, rarray, cn[..count])
  {
    count := 0;
    if |larray| == 0 || |rarray| == 0 {
      return;
    }
    var l, r := larray, rarray;
    if |l| > |r| {
      l, r := rarray, larray;
    }
    count := MergeInStep(l, r, cn);
  }

  datatype Simd = AVX2 | AVX512 | Scalar

  /** How the code was built: the vector width, and whether very uneven lists go to galloping. */
  datatype Build = Build(simd: Simd, hybrid: bool)

  /** One list is at least fifty times as long as the other with one element more. */
  predicate Uneven(m: nat, n: nat) {
    m >= 50 * (n + 1) || n >= 50 * (m + 1)
  }

  class SetIntersection {
    const build: Build
    var galloping_cnt: nat
    var merge_cnt: nat

    constructor (b: Build)
      ensures build == b && galloping_cnt == merge_cnt == 0
    {
      build := b;
      galloping_cnt, merge_cnt := 0, 0;
    }

    /** Whichever kernel is chosen, the output is the sorted intersection. */
    method ComputeCandidates(larray: seq<nat>, rarray: seq<nat>, cn: array<nat>) returns (cn_count: nat)
      requires StrictlyIncreasing(larray) && StrictlyIncreasing(rarray)
      requires |larray| <= cn.Length || |rarray| <= cn.Length
      requires build != Build(AVX512, true)
      modifies this, cn
      ensures cn_count <= cn.Length && IsIntersection(larray, rarray, cn[..cn_count])
      ensures galloping_cnt == old(galloping_cnt) + (if build.hybrid && Uneven(|larray|, |rarray|) then 1 else 0)
      ensures merge_cnt == old(merge_cnt) + (if build.hybrid && !Uneven(|larray|, |rarray|) then 1 else 0)
    {
      if build.hybrid && (|larray| / 50 > |rarray| || |rarray| / 50 > |larray|) {
        galloping_cnt := galloping_cnt + 1;
        cn_count := ComputeGalloping(larray, rarray, build.simd == AVX2, cn);
      } else {
        if build.hybrid {
          merge_cnt := merge_cnt + 1;
        }
        match build.simd {
          case AVX2 => cn_count := ComputeMergeBasedAVX2(larray, rarray, cn);
          case AVX512 => cn_count := ComputeMergeBasedAVX512(larray, rarray, cn);
          case Scalar => cn_count := StdMerge(larray, rarray, cn);
        }
      }
    }
  }
}
