/** Tasks shared out over queues: owner[e] is the queue of task e. */
module Queues {
  import opened Arithmetic
  import opened Scan

  function Repeat(x: nat, k: nat): seq<nat> {
    seq(k, i => x)
  }

  /** The tasks of queue q among the first |owner|, in order. */
  ghost function Picked(list: seq<nat>, owner: seq<nat>, q: nat): seq<nat>
    requires |owner| <= |list|
  {
    if owner == [] then []
    else
      var last := |owner| - 1;
      Picked(list, owner[..last], q) + (if owner[last] == q then [list[last]] else [])
  }

  /** The summed work of queue q. */
  ghost function Load(work: seq<nat>, owner: seq<nat>, q: nat): nat
    requires |owner| <= |work|
  {
    if owner == [] then 0
    else
      var last := |owner| - 1;
      Load(work, owner[..last], q) + (if owner[last] == q then work[last] else 0)
  }

  /** How many tasks queue q holds. */
  ghost function Held(owner: seq<nat>, q: nat): nat {
    Load(Repeat(1, |owner|), owner, q)
  }

  lemma PickedNext(list: seq<nat>, owner: seq<nat>, x: nat, q: nat)
    requires |owner| < |list|
    ensures Picked(list, owner + [x], q) == Picked(list, owner, q) + (if x == q then [list[|owner|]] else [])
  {
    assert (owner + [x])[..|owner|] == owner;
  }

  lemma LoadNext(work: seq<nat>, owner: seq<nat>, x: nat, q: nat)
    requires |owner| < |work|
    ensures Load(work, owner + [x], q) == Load(work, owner, q) + (if x == q then work[|owner|] else 0)
  {
    assert (owner + [x])[..|owner|] == owner;
  }

  lemma RepeatNext(x: nat, k: nat)
    ensures |Repeat(x, k)| == k && (k > 0 ==> |Repeat(x, k - 1)| == k - 1 && Repeat(x, k) == Repeat(x, k - 1) + [x])
  {
  }

  lemma {:induction false} PickedChunk(list: seq<nat>, owner: seq<nat>, x: nat, k: nat, q: nat)
    requires |owner| + k <= |list|
    ensures Picked(list, owner + Repeat(x, k), q)
            == Picked(list, owner, q) + (if x == q then list[|owner|..|owner| + k] else [])
  {
    hide *;
    RepeatNext(x, k);
    if k == 0 {
      assert owner + Repeat(x, 0) == owner;
      assert list[|owner|..|owner|] == [];
    } else {
      PickedChunk(list, owner, x, k - 1, q);
      assert owner + Repeat(x, k) == (owner + Repeat(x, k - 1)) + [x];
      PickedNext(list, owner + Repeat(x, k - 1), x, q);
      assert list[|owner|..|owner| + k] == list[|owner|..|owner| + k - 1] + [list[|owner| + k - 1]];
    }
  }

  lemma {:induction false} LoadChunk(work: seq<nat>, owner: seq<nat>, x: nat, k: nat, q: nat)
    requires |owner| + k <= |work|
    ensures Load(work, owner + Repeat(x, k), q)
            == Load(work, owner, q) + (if x == q then SumRange(work, |owner|, |owner| + k) else 0)
  {
    hide Load, Repeat;
    RepeatNext(x, k);
    if k == 0 {
      assert owner + Repeat(x, 0) == owner;
    } else {
      LoadChunk(work, owner, x, k - 1, q);
      assert owner + Repeat(x, k) == (owner + Repeat(x, k - 1)) + [x];
      LoadNext(work, owner + Repeat(x, k - 1), x, q);
    }
  }

  lemma {:induction false} LoadExtends(work: seq<nat>, work': seq<nat>, owner: seq<nat>, q: nat)
    requires |owner| <= |work| && |owner| <= |work'| && forall e :: 0 <= e < |owner| ==> work[e] == work'[e]
    ensures Load(work, owner, q) == Load(work', owner, q)
  {
    if owner != [] {
      LoadExtends(work, work', owner[..|owner| - 1], q);
    }
  }

  lemma {:induction false} PickedLength(list: seq<nat>, owner: seq<nat>, q: nat)
    requires |owner| <= |list|
    ensures |Picked(list, owner, q)| == Held(owner, q)
  {
    if owner != [] {
      var front := owner[..|owner| - 1];
      PickedLength(list, front, q);
      LoadExtends(Repeat(1, |front|), Repeat(1, |owner|), front, q);
    }
  }

  lemma {:induction false} HeldPrefix(owner: seq<nat>, e: nat, q: nat)
    requires e <= |owner|
    ensures Held(owner[..e], q) <= Held(owner, q)
    decreases |owner|
  {
    if e < |owner| {
      var front := owner[..|owner| - 1];
      assert front[..e] == owner[..e];
      HeldPrefix(front, e, q);
      LoadExtends(Repeat(1, |front|), Repeat(1, |owner|), front, q);
    } else {
      assert owner[..e] == owner;
    }
  }

  /** Every task is in the queue of its owner, after the earlier tasks of that queue. */
  lemma {:induction false} TaskIsQueued(list: seq<nat>, owner: seq<nat>, e: nat)
    requires e < |owner| <= |list|
    ensures Held(owner[..e], owner[e]) < |Picked(list, owner, owner[e])|
    ensures Picked(list, owner, owner[e])[Held(owner[..e], owner[e])] == list[e]
  {
    var last := |owner| - 1;
    if e == last {
      PickedLength(list, owner[..last], owner[e]);
    } else {
      assert owner[..last][..e] == owner[..e];
      TaskIsQueued(list, owner[..last], e);
    }
  }

  lemma {:induction false} NothingOwned(list: seq<nat>, owner: seq<nat>, q: nat)
    requires |owner| <= |list| && q !in owner
    ensures Picked(list, owner, q) == [] && Load(list, owner, q) == 0
  {
    if owner != [] {
      NothingOwned(list, owner[..|owner| - 1], q);
      assert owner[|owner| - 1] in owner;
    }
  }

  lemma HeldChunk(owner: seq<nat>, x: nat, k: nat, q: nat)
    ensures Held(owner + Repeat(x, k), q) == Held(owner, q) + if x == q then k else 0
  {
    var list := owner + Repeat(x, k);
    PickedChunk(list, owner, x, k, q);
    PickedLength(list, owner, q);
    PickedLength(list, list, q);
  }

  // ---------- All queues together ----------

  /** The loads of queues 0..n together. */
  ghost function TotalLoad(work: seq<nat>, owner: seq<nat>, n: nat): nat
    requires |owner| <= |work|
  {
    if n == 0 then 0 else TotalLoad(work, owner, n - 1) + Load(work, owner, n - 1)
  }

  lemma {:induction false} TotalNext(work: seq<nat>, owner: seq<nat>, x: nat, n: nat)
    requires |owner| < |work|
    ensures TotalLoad(work, owner + [x], n) == TotalLoad(work, owner, n) + (if x < n then work[|owner|] else 0)
    decreases n
  {
    if n > 0 {
      TotalNext(work, owner, x, n - 1);
      LoadNext(work, owner, x, n - 1);
    }
  }

  lemma {:induction false} TotalNothing(work: seq<nat>, n: nat)
    ensures TotalLoad(work, [], n) == 0
    decreases n
  {
    if n > 0 {
      TotalNothing(work, n - 1);
    }
  }

  /** Nothing is lost and nothing counted twice. */
  lemma {:induction false} TotalIsAll(work: seq<nat>, owner: seq<nat>, n: nat)
    requires |owner| <= |work| && forall e :: 0 <= e < |owner| ==> owner[e] < n
    ensures TotalLoad(work, owner, n) == SumRange(work, 0, |owner|)
    decreases |owner|
  {
    if owner == [] {
      TotalNothing(work, n);
    } else {
      var last := |owner| - 1;
      TotalIsAll(work, owner[..last], n);
      TotalNext(work, owner[..last], owner[last], n);
      assert owner == owner[..last] + [owner[last]];
    }
  }

  lemma {:induction false} OnesSum(m: nat, i: nat)
    requires i <= m
    ensures SumRange(Repeat(1, m), 0, i) == i
    decreases i
  {
    if i > 0 {
      OnesSum(m, i - 1);
    }
  }

  lemma {:induction false} LensTotal(lens: seq<nat>, owner: seq<nat>, i: nat)
    requires i <= |lens| && forall q :: 0 <= q < i ==> lens[q] == Held(owner, q)
    ensures SumRange(lens, 0, i) == TotalLoad(Repeat(1, |owner|), owner, i)
    decreases i
  {
    if i > 0 {
      LensTotal(lens, owner, i - 1);
    }
  }

  /** The queue lengths add up to the number of tasks. */
  lemma LensAddUp(lens: seq<nat>, owner: seq<nat>)
    requires forall e :: 0 <= e < |owner| ==> owner[e] < |lens|
    requires forall q :: 0 <= q < |lens| ==> lens[q] == Held(owner, q)
    ensures SumRange(lens, 0, |lens|) == |owner|
  {
    LensTotal(lens, owner, |lens|);
    TotalIsAll(Repeat(1, |owner|), owner, |lens|);
    OnesSum(|owner|, |owner|);
  }

  // ---------- Chunks ----------

  ghost function ChunkOf(chunkOwner: seq<nat>, stride: nat, e: nat): nat
    requires stride > 0 && e < |chunkOwner| * stride
  {
    QuotientBound(e, stride, |chunkOwner|);
    chunkOwner[e / stride]
  }

  /** Each chunk of `stride` tasks goes where the chunk's owner says. */
  ghost function Owners(chunkOwner: seq<nat>, stride: nat, m: nat): seq<nat>
    requires stride > 0 && m <= |chunkOwner| * stride
  {
    seq(m, e requires 0 <= e < m => ChunkOf(chunkOwner, stride, e))
  }

  lemma OwnersNext(chunkOwner: seq<nat>, stride: nat, x: nat, size: nat)
    requires stride > 0 && size <= stride
    ensures (|chunkOwner| + 1) * stride == |chunkOwner| * stride + stride
    ensures Owners(chunkOwner + [x], stride, |chunkOwner| * stride + size)
            == Owners(chunkOwner, stride, |chunkOwner| * stride) + Repeat(x, size)
  {
    var m := |chunkOwner| * stride;
    assert (|chunkOwner| + 1) * stride == m + stride;
    var a, b := Owners(chunkOwner + [x], stride, m + size), Owners(chunkOwner, stride, m) + Repeat(x, size);
    forall e | 0 <= e < m + size ensures a[e] == b[e] {
      if e < m {
        QuotientBound(e, stride, |chunkOwner|);
      } else {
        QuotientIs(|chunkOwner|, stride, e - m);
      }
    }
  }
}
