/** Chunked round robin (sansa/src/common/scheduler.cc:34-85). */
module RoundRobin {
  import opened Counting
  import opened Arithmetic
  import opened Scan
  import opened Queues
  import opened GreedyBalance
  import opened Scheduling

  /** Chunk j goes to queue j % n. */
  ghost function InTurn(k: nat, n: nat): (owner: seq<nat>)
    requires n > 0
    ensures |owner| == k
  {
    seq(k, j requires 0 <= j => j % n)
  }

  lemma InTurnNext(k: nat, n: nat)
    requires n > 0
    ensures InTurn(k + 1, n) == InTurn(k, n) + [k % n]
  {
  }

  lemma IndexTurn(n: nat, c: nat, r: nat)
    requires r < n
    ensures Index(n, c, r) % n == r && Index(n, c, r) + 1 == Index(n, c, r + 1)
    ensures Index(n, c, n) == Index(n, c + 1, 0)
    ensures Index(n, 0, 0) == 0
  {
    var x := c * n + r;
    QuotientIs(c, n, r);
    assert x == n * (x / n) + x % n;
  }

  /** What is filled of one buffer. */
  ghost predicate FilledTo(list: seq<nat>, owner: seq<nat>, q: nat, buffer: seq<nat>) {
    |owner| <= |list| && Held(owner, q) <= |buffer| && buffer[..Held(owner, q)] == Picked(list, owner, q)
  }

  ghost predicate Filled(src_list: seq<nat>, dst_list: seq<nat>, owner: seq<nat>, srcs: seq<seq<nat>>,
                         dsts: seq<seq<nat>>, lens: seq<nat>) {
    && |srcs| == |dsts| == |lens| && |src_list| == |dst_list|
    && forall q :: 0 <= q < |lens| ==>
         && |srcs[q]| == |dsts[q]| == lens[q]
         && FilledTo(src_list, owner, q, srcs[q]) && FilledTo(dst_list, owner, q, dsts[q])
  }

  lemma FilledToNext(list: seq<nat>, owner: seq<nat>, x: nat, k: nat, q: nat, buffer: seq<nat>)
    requires FilledTo(list, owner, q, buffer) && |owner| + k <= |list|
    requires x == q ==> Held(owner, q) + k <= |buffer|
    ensures FilledTo(list, owner + Repeat(x, k), q,
                     if x == q then Overwritten(buffer, Held(owner, q), list[|owner|..|owner| + k]) else buffer)
  {
    hide Picked, Held;
    HeldChunk(owner, x, k, q);
    PickedChunk(list, owner, x, k, q);
    if x == q {
      var after := Overwritten(buffer, Held(owner, q), list[|owner|..|owner| + k]);
      assert after[..Held(owner, q) + k] == buffer[..Held(owner, q)] + list[|owner|..|owner| + k];
    }
  }

  /** One more chunk copied to its buffer. */
  lemma FilledNext(src_list: seq<nat>, dst_list: seq<nat>, owner: seq<nat>, srcs: seq<seq<nat>>, dsts: seq<seq<nat>>,
                   lens: seq<nat>, x: nat, k: nat)
    requires Filled(src_list, dst_list, owner, srcs, dsts, lens)
    requires x < |lens| && |owner| + k <= |src_list| && Held(owner, x) + k <= lens[x]
    ensures |srcs[x]| == |dsts[x]| == lens[x] && |srcs| == |dsts| == |lens| && |src_list| == |dst_list|
    ensures var at, b, e := Held(owner, x), |owner|, |owner| + k;
            Filled(src_list, dst_list, owner + Repeat(x, k),
                   srcs[x := Overwritten(srcs[x], at, src_list[b..e])],
                   dsts[x := Overwritten(dsts[x], at, dst_list[b..e])], lens)
  {
    hide Picked, Held, FilledTo, Overwritten, Repeat;
    var at, b, e := Held(owner, x), |owner|, |owner| + k;
    var srcs', dsts' := srcs[x := Overwritten(srcs[x], at, src_list[b..e])],
                        dsts[x := Overwritten(dsts[x], at, dst_list[b..e])];
    forall q | 0 <= q < |lens|
      ensures FilledTo(src_list, owner + Repeat(x, k), q, srcs'[q])
              && FilledTo(dst_list, owner + Repeat(x, k), q, dsts'[q])
    {
      FilledToNext(src_list, owner, x, k, q, srcs[q]);
      FilledToNext(dst_list, owner, x, k, q, dsts[q]);
    }
  }

  lemma FilledNothing(src_list: seq<nat>, dst_list: seq<nat>, srcs: seq<seq<nat>>, dsts: seq<seq<nat>>, lens: seq<nat>)
    requires |srcs| == |dsts| == |lens| && |src_list| == |dst_list|
    requires forall q :: 0 <= q < |lens| ==> |srcs[q]| == |dsts[q]| == lens[q]
    ensures Filled(src_list, dst_list, [], srcs, dsts, lens)
  {
  }

  /** Buffers filled to the end are queues. */
  lemma FilledIsDealt(src_list: seq<nat>, dst_list: seq<nat>, owner: seq<nat>, srcs: seq<seq<nat>>, dsts: seq<seq<nat>>,
                      lens: seq<nat>)
    requires Filled(src_list, dst_list, owner, srcs, dsts, lens) && |owner| <= |src_list|
    requires forall q :: 0 <= q < |lens| ==> lens[q] == Held(owner, q)
    requires forall q :: q in owner ==> q < |lens|
    ensures Dealt(src_list, dst_list, owner, |lens|, srcs, dsts, lens)
  {
    hide Picked, Held;
    forall q | 0 <= q < |lens| ensures DealtTo(src_list, dst_list, owner, q, srcs[q], dsts[q]) {
      assert srcs[q][..lens[q]] == srcs[q] && dsts[q][..lens[q]] == dsts[q];
    }
    forall e | 0 <= e < |owner| ensures owner[e] < |lens| {
      assert owner[e] in owner;
    }
  }

  // ---------- How much each queue gets ----------

  /** Full chunks held by queue q after the first r queues of round c have theirs. */
  function Turns(c: nat, r: nat, q: nat): nat {
    if q < r then c + 1 else c
  }

  ghost function OwnersInTurn(k: nat, n: nat, stride: nat, total: nat): seq<nat>
    requires n > 0 && stride > 0
  {
    TaskOwners(InTurn(k, n), stride, total)
  }

  /** The next chunk in turn. */
  lemma NextInTurn(n: nat, stride: nat, total: nat, c: nat, r: nat)
    requires stride > 0 && r < n && Index(n, c, r) < Chunks(total, stride)
    ensures var k := Index(n, c, r);
            var b, e := BlockStart(total, stride, k), BlockStart(total, stride, k + 1);
            && b < total && b <= e <= b + stride
            && |OwnersInTurn(k, n, stride, total)| == b
            && OwnersInTurn(k + 1, n, stride, total) == OwnersInTurn(k, n, stride, total) + Repeat(r, e - b)
  {
    hide TaskOwners, Chunks, BlockStart, Repeat;
    var k := Index(n, c, r);
    IndexTurn(n, c, r);
    InTurnNext(k, n);
    NextChunk(InTurn(k, n), stride, total, r);
  }

  lemma HeldNone(n: nat, stride: nat, total: nat, q: nat)
    requires n > 0 && stride > 0
    ensures Held(OwnersInTurn(0, n, stride, total), q) == 0 && OwnersInTurn(0, n, stride, total) == []
  {
  }

  lemma TurnsTimes(c: nat, r: nat, q: nat, stride: nat)
    requires r > 0
    ensures Times(Turns(c, r, q), stride) == Times(Turns(c, r - 1, q), stride) + if q == r - 1 then stride else 0
    ensures Times(0, stride) == 0
  {
    if q == r - 1 {
      TimesSuccessor(c, stride);
    }
  }

  lemma TurnsWrap(c: nat, n: nat, q: nat)
    requires c > 0 && q < n
    ensures Turns(c - 1, n, q) == Turns(c, 0, q)
  {
  }

  lemma TurnsNone(q: nat, stride: nat, n: nat)
    ensures Times(Turns(0, 0, q), stride) == 0 && Index(n, 0, 0) == 0
  {
  }

  /** If chunk k starts before the end, or exactly at it, the chunk before it is full. */
  lemma FullBefore(total: nat, stride: nat, k: nat)
    requires stride > 0 && k > 0
    requires BlockStart(total, stride, k) < total || Times(k, stride) == total
    ensures k - 1 < Chunks(total, stride) && BlockStart(total, stride, k - 1) < total
    ensures BlockStart(total, stride, k) == BlockStart(total, stride, k - 1) + stride
  {
    hide Chunks;
    assert k * stride == (k - 1) * stride + stride;
    ChunksCover(total, stride, k - 1);
  }

  /** As long as all chunks are full, a queue holds `stride` tasks for each of its turns. */
  lemma {:induction false} HeldInTurn(n: nat, stride: nat, total: nat, c: nat, r: nat, q: nat)
    requires n > 0 && stride > 0 && r <= n && q < n
    requires BlockStart(total, stride, Index(n, c, r)) < total || Times(Index(n, c, r), stride) == total
    ensures Held(OwnersInTurn(Index(n, c, r), n, stride, total), q) == Times(Turns(c, r, q), stride)
    decreases c, r
  {
    hide *;
    IndexTurn(n, c, 0);
    if r > 0 {
      IndexTurn(n, c, r - 1);
      var k := Index(n, c, r - 1);
      FullBefore(total, stride, k + 1);
      HeldInTurn(n, stride, total, c, r - 1, q);
      NextInTurn(n, stride, total, c, r - 1);
      HeldChunk(OwnersInTurn(k, n, stride, total), r - 1, stride, q);
      TurnsTimes(c, r, q, stride);
    } else if c > 0 {
      IndexTurn(n, c - 1, 0);
      TurnsWrap(c, n, q);
      HeldInTurn(n, stride, total, c - 1, n, q);
    } else {
      HeldNone(n, stride, total, q);
      TurnsNone(q, stride, n);
    }
  }

  // ---------- Which chunks are given out ----------

  /** The last round is full, and so is its last chunk. */
  predicate DropsLast(n: nat, stride: nat, nnz: nat)
    requires n > 0 && stride > 0
  {
    Chunks(nnz, stride) % n == 0 && nnz % stride == 0
  }

  /** The number of chunks given out: all but, in that case, the last. */
  ghost function Given(n: nat, stride: nat, nnz: nat): nat
    requires n > 0 && stride > 0
  {
    if DropsLast(n, stride, nnz) && nnz > 0 then Chunks(nnz, stride) - 1 else Chunks(nnz, stride)
  }

  /** The size of the last chunk. */
  lemma LastSize(stride: nat, nnz: nat)
    requires stride > 0 && nnz > 0
    ensures Chunks(nnz, stride) > 0
    ensures BlockStart(nnz, stride, Chunks(nnz, stride) - 1) < nnz
            && BlockStart(nnz, stride, Chunks(nnz, stride)) == nnz
    ensures nnz - BlockStart(nnz, stride, Chunks(nnz, stride) - 1) == if nnz % stride == 0 then stride else nnz % stride
  {
    var d := Chunks(nnz, stride) - 1;
    hide Chunks;
    ChunksCover(nnz, stride, d);
    ChunksCover(nnz, stride, d + 1);
    assert (d + 1) * stride == d * stride + stride;
    var s := nnz - d * stride;
    if s < stride {
      RemainderIs(d, stride, s);
    } else {
      RemainderIs(d + 1, stride, 0);
    }
  }

  /** All tasks are given out exactly if no chunk is dropped. */
  lemma AllGivenUnlessDropped(n: nat, stride: nat, nnz: nat)
    requires n > 0 && stride > 0 && nnz > 0
    ensures |OwnersInTurn(Given(n, stride, nnz), n, stride, nnz)| == nnz <==> !DropsLast(n, stride, nnz)
    ensures DropsLast(n, stride, nnz) ==> |OwnersInTurn(Given(n, stride, nnz), n, stride, nnz)| == nnz - stride
  {
    LastSize(stride, nnz);
  }

  /** total = rounds * n + rest. */
  lemma RoundsAre(n: nat, stride: nat, nnz: nat)
    requires n > 0 && stride > 0 && nnz > 0
    ensures var total := Chunks(nnz, stride);
            && total == Index(n, total / n, total % n) && total % n < n && total > 0
            && (total % n == 0 ==>
                  total / n > 0 && total == Index(n, total / n - 1, n) && total - 1 == Index(n, total / n - 1, n - 1))
            && (total % n > 0 ==> total - 1 == Index(n, total / n, total % n - 1))
  {
    var total := Chunks(nnz, stride);
    LastSize(stride, nnz);
    hide Chunks;
    var c := total / n;
    assert total == n * c + total % n == c * n + total % n;
    if c > 0 {
      assert c * n == (c - 1) * n + n;
    }
  }

  /** The length of queue q, as computed. */
  function Length(n: nat, stride: nat, nnz: nat, q: nat): int
    requires n > 0 && stride > 0
  {
    var total := Chunks(nnz, stride);
    Times(total / n, stride)
    + if total % n != 0 then
        if q + 1 == total % n then (if nnz % stride == 0 then stride else nnz % stride)
        else if q + 1 < total % n then stride
        else 0
      else if q == n - 1 then nnz % stride - stride
      else 0
  }

  /** It is the number of tasks given to q. */
  lemma LengthIsHeld(n: nat, stride: nat, nnz: nat, q: nat)
    requires n > 0 && stride > 0 && nnz > 0 && q < n
    ensures Length(n, stride, nnz, q) == Held(OwnersInTurn(Given(n, stride, nnz), n, stride, nnz), q)
  {
    hide Chunks, BlockStart, OwnersInTurn, Held, Index, Times, Repeat;
    var total := Chunks(nnz, stride);
    var c, rest := total / n, total % n;
    RoundsAre(n, stride, nnz);
    LastSize(stride, nnz);
    if rest != 0 {
      HeldInTurn(n, stride, nnz, c, rest - 1, q);
      NextInTurn(n, stride, nnz, c, rest - 1);
      HeldChunk(OwnersInTurn(total - 1, n, stride, nnz), rest - 1,
                BlockStart(nnz, stride, total) - BlockStart(nnz, stride, total - 1), q);
      TimesSuccessor(c, stride);
    } else {
      HeldInTurn(n, stride, nnz, c - 1, n - 1, q);
      NextInTurn(n, stride, nnz, c - 1, n - 1);
      HeldChunk(OwnersInTurn(total - 1, n, stride, nnz), n - 1,
                BlockStart(nnz, stride, total) - BlockStart(nnz, stride, total - 1), q);
      TimesSuccessor(c - 1, stride);
    }
  }

  lemma {:induction false} HeldGrows(n: nat, stride: nat, total: nat, k: nat, k': nat, q: nat)
    requires n > 0 && stride > 0 && k <= k' <= Chunks(total, stride)
    ensures Held(OwnersInTurn(k, n, stride, total), q) <= Held(OwnersInTurn(k', n, stride, total), q)
    decreases k'
  {
    if k < k' {
      hide Chunks, TaskOwners, Held, Repeat, BlockStart;
      var c := k' - 1;
      HeldGrows(n, stride, total, k, c, q);
      InTurnNext(c, n);
      NextChunk(InTurn(c, n), stride, total, c % n);
      HeldChunk(OwnersInTurn(c, n, stride, total), c % n, BlockStart(total, stride, k') - BlockStart(total, stride, c),
                q);
    }
  }

  /** Where the chunk of queue r in round c starts. */
  function Position(n: nat, stride: nat, c: nat, r: nat): nat {
    c * n * stride + r * stride
  }

  lemma PositionIs(n: nat, stride: nat, c: nat, r: nat)
    ensures Position(n, stride, c, r) == Index(n, c, r) * stride
  {
    assert (c * n + r) * stride == c * n * stride + r * stride;
  }

  /** How much is copied for queue r in round c. */
  function CopySize(n: nat, stride: nat, nnz: nat, c: nat, r: nat): (size: nat)
    requires n > 0 && stride > 0
  {
    var total := Chunks(nnz, stride);
    if total % n == 0 then
      if c + 1 == total / n && r + 1 == n then nnz % stride else stride
    else
      if c == total / n && r + 1 == total % n then (if nnz % stride == 0 then stride else nnz % stride) else stride
  }

  /** The owners after chunk index k has been dealt with. */
  ghost function OwnersSoFar(n: nat, stride: nat, nnz: nat, k: nat): seq<nat>
    requires n > 0 && stride > 0
  {
    OwnersInTurn(Min(k, Given(n, stride, nnz)), n, stride, nnz)
  }

  lemma NothingRepeated(owner: seq<nat>, x: nat)
    ensures owner + Repeat(x, 0) == owner
  {
  }

  lemma TurnsOwn(c: nat, r: nat)
    ensures Turns(c, r, r) == c
  {
  }

  lemma StartIs(total: nat, stride: nat, k: nat)
    requires BlockStart(total, stride, k) < total
    ensures BlockStart(total, stride, k) == k * stride
  {
  }

  lemma GivenIs(n: nat, stride: nat, nnz: nat, k: nat)
    requires n > 0 && stride > 0 && nnz > 0 && k < Chunks(nnz, stride)
    ensures var last := Given(n, stride, nnz);
            && k <= last <= Chunks(nnz, stride) && Min(k, last) == k
            && (k < last ==> Min(k + 1, last) == k + 1)
            && (k == last ==> Min(k + 1, last) == k && DropsLast(n, stride, nnz) && k + 1 == Chunks(nnz, stride))
            && (k < last && k + 1 == Chunks(nnz, stride) ==> !DropsLast(n, stride, nnz))
            && OwnersSoFar(n, stride, nnz, k) == OwnersInTurn(k, n, stride, nnz)
            && OwnersSoFar(n, stride, nnz, k + 1) == OwnersInTurn(Min(k + 1, last), n, stride, nnz)
  {
    hide Chunks, OwnersInTurn;
  }

  lemma NotLastIsFull(nnz: nat, stride: nat, k: nat)
    requires stride > 0 && k + 1 < Chunks(nnz, stride)
    ensures BlockStart(nnz, stride, k + 1) == BlockStart(nnz, stride, k) + stride
  {
    hide Chunks;
    ChunksCover(nnz, stride, k + 1);
    assert (k + 1) * stride == k * stride + stride;
  }

  /** Which round and queue the last chunk has. */
  lemma IndexUnique(n: nat, c: nat, r: nat, total: nat)
    requires n > 0 && r < n && Index(n, c, r) < total
    ensures Index(n, c, r) + 1 == total <==>
            if total % n == 0 then c + 1 == total / n && r + 1 == n else c == total / n && r + 1 == total % n
  {
    var d := total / n;
    assert total == n * d + total % n == d * n + total % n;
    assert (c + 1) * n == c * n + n;
    if c * n + r + 1 == total {
      if r + 1 == n {
        QuotientIs(c + 1, n, 0);
        RemainderIs(c + 1, n, 0);
      } else {
        QuotientIs(c, n, r + 1);
        RemainderIs(c, n, r + 1);
      }
    }
    if total % n == 0 && c + 1 == d && r + 1 == n {
      assert d * n == (c + 1) * n;
    }
  }

  /** The copied size is the chunk, or nothing if the chunk is dropped. */
  lemma SizeIs(n: nat, stride: nat, nnz: nat, c: nat, r: nat)
    requires n > 0 && stride > 0 && nnz > 0 && r < n && Index(n, c, r) < Chunks(nnz, stride)
    ensures var k := Index(n, c, r);
            var size := BlockStart(nnz, stride, k + 1) - BlockStart(nnz, stride, k);
            && (k + 1 == Chunks(nnz, stride) ==> BlockStart(nnz, stride, k + 1) == nnz)
            && CopySize(n, stride, nnz, c, r)
               == if k + 1 == Chunks(nnz, stride) && DropsLast(n, stride, nnz) then 0 else size
  {
    hide Chunks, BlockStart;
    var k, total := Index(n, c, r), Chunks(nnz, stride);
    LastSize(stride, nnz);
    RoundsAre(n, stride, nnz);
    IndexUnique(n, c, r, total);
    if k + 1 < total {
      NotLastIsFull(nnz, stride, k);
    }
  }

  /** One copy extends one queue by one chunk. */
  lemma CopyStep(n: nat, stride: nat, nnz: nat, c: nat, r: nat)
    requires n > 0 && stride > 0 && nnz > 0 && r < n && Index(n, c, r) < Chunks(nnz, stride)
    ensures var k, size := Index(n, c, r), CopySize(n, stride, nnz, c, r);
            && |OwnersSoFar(n, stride, nnz, k)| == Position(n, stride, c, r)
            && Position(n, stride, c, r) + size <= nnz
            && (k + 1 == Chunks(nnz, stride) && !DropsLast(n, stride, nnz) ==> Position(n, stride, c, r) + size == nnz)
            && OwnersSoFar(n, stride, nnz, Index(n, c, r + 1)) == OwnersSoFar(n, stride, nnz, k) + Repeat(r, size)
            && Held(OwnersSoFar(n, stride, nnz, k), r) == Times(c, stride)
            && Times(c, stride) + size <= Length(n, stride, nnz, r)
  {
    hide *;
    var k, size, total, last := Index(n, c, r), CopySize(n, stride, nnz, c, r), Chunks(nnz, stride),
                                Given(n, stride, nnz);
    IndexTurn(n, c, r);
    GivenIs(n, stride, nnz, k);
    NextInTurn(n, stride, nnz, c, r);
    StartIs(nnz, stride, k);
    PositionIs(n, stride, c, r);
    HeldInTurn(n, stride, nnz, c, r, r);
    TurnsOwn(c, r);
    SizeIs(n, stride, nnz, c, r);
    LengthIsHeld(n, stride, nnz, r);
    NothingRepeated(OwnersInTurn(k, n, stride, nnz), r);
    HeldGrows(n, stride, nnz, Min(k + 1, last), last, r);
    HeldChunk(OwnersInTurn(k, n, stride, nnz), r, size, r);
  }

  // ---------- The program ----------

  lemma LengthIs(n: nat, stride: nat, nnz: nat, q: nat, per: nat, rest: nat, tail: nat)
    requires n > 0 && stride > 0 && nnz > 0
    requires per == Chunks(nnz, stride) / n && rest == Chunks(nnz, stride) % n && tail == nnz % stride
    ensures Length(n, stride, nnz, q)
            == Times(per, stride)
               + if rest == 0 then (if q == n - 1 then tail - stride else 0)
                 else if q + 1 == rest then (if tail == 0 then stride else tail)
                 else if q + 1 < rest then stride
                 else 0
  {
    hide Times, Chunks;
  }

  lemma TimesIsNat(a: nat, b: nat)
    ensures Times(a, b) >= 0
  {
  }

  method QueueLengths(n: nat, nnz: nat, stride: nat) returns (lens: seq<nat>)
    requires n > 0 && stride > 0 && nnz > 0
    ensures |lens| == n && forall q :: 0 <= q < n ==> lens[q] == Length(n, stride, nnz, q)
  {
    hide *;
    var total_num_chunks := (nnz - 1) / stride + 1;
    var nchunks_per_queue, rest, tail := total_num_chunks / n, total_num_chunks % n, nnz % stride;
    ChunksIs(nnz, stride);
    TimesIsNat(nchunks_per_queue, stride);
    lens := seq(n, i => Times(nchunks_per_queue, stride));
    if rest != 0 {
      for i := 0 to n
        invariant |lens| == n && forall q :: 0 <= q < n ==>
                    lens[q] == if q < i then Length(n, stride, nnz, q) else Times(nchunks_per_queue, stride)
      {
        LengthIs(n, stride, nnz, i, nchunks_per_queue, rest, tail);
        if i + 1 == rest {
          lens := lens[i := lens[i] + if tail == 0 then stride else tail];
        } else if i + 1 < rest {
          lens := lens[i := lens[i] + stride];
        }
      }
    } else {
      forall q | 0 <= q < n
        ensures Length(n, stride, nnz, q) == Times(nchunks_per_queue, stride) + if q == n - 1 then tail - stride else 0
      {
        LengthIs(n, stride, nnz, q, nchunks_per_queue, rest, tail);
      }
      LengthIsHeld(n, stride, nnz, n - 1);
      lens := lens[n - 1 := lens[n - 1] + tail - stride];
    }
  }

  /** One chunk to one queue. */
  method CopyChunk(n: nat, src_list: seq<nat>, dst_list: seq<nat>, stride: nat, c: nat, r: nat, size: nat,
                   srcs: seq<seq<nat>>, dsts: seq<seq<nat>>, lens: seq<nat>)
    returns (srcs': seq<seq<nat>>, dsts': seq<seq<nat>>)
    requires stride > 0 && |src_list| == |dst_list| > 0 && r < n == |lens|
             && Index(n, c, r) < Chunks(|src_list|, stride)
    requires forall q :: 0 <= q < n ==> lens[q] == Length(n, stride, |src_list|, q)
    requires size == CopySize(n, stride, |src_list|, c, r)
    requires Filled(src_list, dst_list, OwnersSoFar(n, stride, |src_list|, Index(n, c, r)), srcs, dsts, lens)
    ensures Filled(src_list, dst_list, OwnersSoFar(n, stride, |src_list|, Index(n, c, r + 1)), srcs', dsts', lens)
  {
    hide *;
    var pos, at := Position(n, stride, c, r), Times(c, stride);
    CopyStep(n, stride, |src_list|, c, r);
    FilledNext(src_list, dst_list, OwnersSoFar(n, stride, |src_list|, Index(n, c, r)), srcs, dsts, lens, r, size);
    srcs' := srcs[r := Overwritten(srcs[r], at, src_list[pos..pos + size])];
    dsts' := dsts[r := Overwritten(dsts[r], at, dst_list[pos..pos + size])];
  }

  lemma IndexBelow(n: nat, c: nat, r: nat, total: nat)
    requires r < n && c < total / n
    ensures Index(n, c, r) < total
  {
    var d := total / n;
    assert total == n * d + total % n == d * n + total % n;
    MulMonotone(c + 1, d, n);
    assert (c + 1) * n == c * n + n;
  }

  lemma FullRoundSize(n: nat, stride: nat, nnz: nat, c: nat, r: nat)
    requires n > 0 && stride > 0 && c < Chunks(nnz, stride) / n && r < n
    ensures CopySize(n, stride, nnz, c, r)
            == if Chunks(nnz, stride) % n == 0 && c == Chunks(nnz, stride) / n - 1 && r == n - 1 then nnz % stride
              else stride
  {
    hide Chunks;
  }

  /** The full rounds. */
  method CopyRounds(n: nat, src_list: seq<nat>, dst_list: seq<nat>, stride: nat, lens: seq<nat>, nchunks_per_queue: nat,
                    srcs: seq<seq<nat>>, dsts: seq<seq<nat>>) returns (srcs': seq<seq<nat>>, dsts': seq<seq<nat>>)
    requires n > 0 && stride > 0 && |src_list| == |dst_list| > 0 && |lens| == n
    requires nchunks_per_queue == Chunks(|src_list|, stride) / n
    requires forall q :: 0 <= q < n ==> lens[q] == Length(n, stride, |src_list|, q)
    requires Filled(src_list, dst_list, OwnersSoFar(n, stride, |src_list|, Index(n, 0, 0)), srcs, dsts, lens)
    ensures Filled(src_list, dst_list, OwnersSoFar(n, stride, |src_list|, Index(n, nchunks_per_queue, 0)), srcs', dsts',
                   lens)
  {
    hide *;
    var nnz, total_num_chunks := |src_list|, Chunks(|src_list|, stride);
    srcs', dsts' := srcs, dsts;
    for chunk_id := 0 to nchunks_per_queue
      invariant Filled(src_list, dst_list, OwnersSoFar(n, stride, nnz, Index(n, chunk_id, 0)), srcs', dsts', lens)
    {
      for qid := 0 to n
        invariant Filled(src_list, dst_list, OwnersSoFar(n, stride, nnz, Index(n, chunk_id, qid)), srcs', dsts', lens)
      {
        IndexBelow(n, chunk_id, qid, total_num_chunks);
        FullRoundSize(n, stride, nnz, chunk_id, qid);
        var size := stride;
        if total_num_chunks % n == 0 && chunk_id == nchunks_per_queue - 1 && qid == n - 1 {
          size := nnz % stride;
        }
        srcs', dsts' := CopyChunk(n, src_list, dst_list, stride, chunk_id, qid, size, srcs', dsts', lens);
      }
      IndexTurn(n, chunk_id, 0);
    }
  }

  lemma RemainderBelow(total: nat, n: nat)
    requires n > 0
    ensures total % n < n
  {
  }

  lemma IndexWithin(n: nat, c: nat, r: nat, total: nat)
    requires n > 0 && c == total / n && r < total % n
    ensures Index(n, c, r) < total
  {
    assert total == n * c + total % n == c * n + total % n;
  }

  lemma LastRoundSize(n: nat, stride: nat, nnz: nat, i: nat)
    requires n > 0 && stride > 0 && i < Chunks(nnz, stride) % n
    ensures i + 1 < Chunks(nnz, stride) % n ==> CopySize(n, stride, nnz, Chunks(nnz, stride) / n, i) == stride
  {
    hide Chunks;
  }

  lemma LastCopy(n: nat, stride: nat, nnz: nat, i: nat)
    requires n > 0 && stride > 0 && nnz > 0 && i + 1 == Chunks(nnz, stride) % n
    ensures !DropsLast(n, stride, nnz)
    ensures Index(n, Chunks(nnz, stride) / n, i) + 1 == Chunks(nnz, stride)
  {
    hide Chunks;
    RoundsAre(n, stride, nnz);
  }

  lemma MinIs(i: nat, rest: nat)
    ensures i < rest ==> Min(i, rest) == i && Min(i + 1, rest) == i + 1
    ensures i >= rest ==> Min(i, rest) == rest == Min(i + 1, rest)
    ensures Min(0, rest) == 0
  {
  }

  /** The last, partial round. */
  method CopyRest(n: nat, src_list: seq<nat>, dst_list: seq<nat>, stride: nat, lens: seq<nat>, nchunks_per_queue: nat,
                  rest: nat, srcs: seq<seq<nat>>, dsts: seq<seq<nat>>)
    returns (srcs': seq<seq<nat>>, dsts': seq<seq<nat>>)
    requires n > 0 && stride > 0 && |src_list| == |dst_list| > 0 && |lens| == n
    requires nchunks_per_queue == Chunks(|src_list|, stride) / n && rest == Chunks(|src_list|, stride) % n
    requires forall q :: 0 <= q < n ==> lens[q] == Length(n, stride, |src_list|, q)
    requires Filled(src_list, dst_list, OwnersSoFar(n, stride, |src_list|, Index(n, nchunks_per_queue, 0)), srcs, dsts,
                    lens)
    ensures Filled(src_list, dst_list, OwnersSoFar(n, stride, |src_list|, Index(n, nchunks_per_queue, rest)), srcs',
                   dsts', lens)
  {
    hide *;
    var nnz := |src_list|;
    srcs', dsts' := srcs, dsts;
    MinIs(0, rest);
    for i := 0 to n
      invariant Filled(src_list, dst_list, OwnersSoFar(n, stride, nnz, Index(n, nchunks_per_queue, Min(i, rest))),
                       srcs', dsts', lens)
    {
      MinIs(i, rest);
      if i + 1 <= rest {
        IndexWithin(n, nchunks_per_queue, i, Chunks(nnz, stride));
        LastRoundSize(n, stride, nnz, i);
        CopyStep(n, stride, nnz, nchunks_per_queue, i);
      }
      if i + 1 == rest {
        LastCopy(n, stride, nnz, i);
        srcs', dsts' := CopyChunk(n, src_list, dst_list, stride, nchunks_per_queue, i,
                                  nnz - Position(n, stride, nchunks_per_queue, i), srcs', dsts', lens);
      } else if i + 1 < rest {
        srcs', dsts' := CopyChunk(n, src_list, dst_list, stride, nchunks_per_queue, i, stride, srcs', dsts', lens);
      }
    }
    MinIs(n, rest);
    RemainderBelow(Chunks(nnz, stride), n);
  }

  method NewBuffers(lens: seq<nat>) returns (srcs: seq<seq<nat>>, dsts: seq<seq<nat>>)
    ensures |srcs| == |dsts| == |lens| && forall q :: 0 <= q < |lens| ==> |srcs[q]| == |dsts[q]| == lens[q]
  {
    srcs := seq(|lens|, i requires 0 <= i < |lens| => Repeat(0, lens[i]));
    dsts := srcs;
  }

  lemma ChunksIs(nnz: nat, stride: nat)
    requires nnz > 0 && stride > 0
    ensures Chunks(nnz, stride) == (nnz - 1) / stride + 1
  {
  }

  lemma StartsEmpty(n: nat, stride: nat, nnz: nat)
    requires n > 0 && stride > 0
    ensures OwnersSoFar(n, stride, nnz, Index(n, 0, 0)) == []
  {
    HeldNone(n, stride, nnz, 0);
  }

  lemma OwnersAreQueues(k: nat, n: nat, stride: nat, nnz: nat)
    requires n > 0 && stride > 0
    ensures |OwnersInTurn(k, n, stride, nnz)| <= nnz
    ensures forall q :: q in OwnersInTurn(k, n, stride, nnz) ==> q < n
  {
    hide TaskOwners;
    TaskOwnersFrom(InTurn(k, n), stride, nnz);
  }

  lemma AllFilled(src_list: seq<nat>, dst_list: seq<nat>, n: nat, stride: nat, srcs: seq<seq<nat>>, dsts: seq<seq<nat>>,
                  lens: seq<nat>)
    requires n > 0 && stride > 0 && |src_list| == |dst_list| > 0 && |lens| == n
    requires Filled(src_list, dst_list, OwnersSoFar(n, stride, |src_list|, Chunks(|src_list|, stride)), srcs, dsts,
                    lens)
    requires forall q :: 0 <= q < n ==> lens[q] == Length(n, stride, |src_list|, q)
    ensures Dealt(src_list, dst_list, OwnersInTurn(Given(n, stride, |src_list|), n, stride, |src_list|), n, srcs, dsts,
                  lens)
  {
    var nnz := |src_list|;
    var last := Given(n, stride, nnz);
    var owner := OwnersInTurn(last, n, stride, nnz);
    assert OwnersSoFar(n, stride, nnz, Chunks(nnz, stride)) == owner;
    OwnersAreQueues(last, n, stride, nnz);
    hide *;
    forall q | 0 <= q < n ensures lens[q] == Held(owner, q) {
      LengthIsHeld(n, stride, nnz, q);
    }
    FilledIsDealt(src_list, dst_list, owner, srcs, dsts, lens);
  }

  /** Copies chunks to the queues in turn. */
  method RoundRobin(n: nat, src_list: seq<nat>, dst_list: seq<nat>, stride: nat)
    returns (lens: seq<nat>, srcs: seq<seq<nat>>, dsts: seq<seq<nat>>)
    requires n > 0 && stride > 0 && |src_list| == |dst_list| > 0
    ensures Dealt(src_list, dst_list, OwnersInTurn(Given(n, stride, |src_list|), n, stride, |src_list|), n, srcs, dsts,
                  lens)
  {
    hide *;
    var nnz := |src_list|;
    var total_num_chunks := (nnz - 1) / stride + 1;
    var nchunks_per_queue := total_num_chunks / n;
    lens := QueueLengths(n, nnz, stride);
    srcs, dsts := NewBuffers(lens);
    ChunksIs(nnz, stride);
    RoundsAre(n, stride, nnz);
    FilledNothing(src_list, dst_list, srcs, dsts, lens);
    StartsEmpty(n, stride, nnz);
    srcs, dsts := CopyRounds(n, src_list, dst_list, stride, lens, nchunks_per_queue, srcs, dsts);
    srcs, dsts := CopyRest(n, src_list, dst_list, stride, lens, nchunks_per_queue, total_num_chunks % n, srcs, dsts);
    AllFilled(src_list, dst_list, n, stride, srcs, dsts, lens);
  }

  // ---------- When every task is assigned ----------

  /** Queue q holds chunks q, q + n, q + 2n and so on. */
  lemma TurnOfTask(n: nat, stride: nat, nnz: nat, e: nat)
    requires n > 0 && stride > 0 && e < |OwnersInTurn(Given(n, stride, nnz), n, stride, nnz)|
    ensures OwnersInTurn(Given(n, stride, nnz), n, stride, nnz)[e] == (e / stride) % n
  {
    hide Given, TaskOwners;
    TaskOwnerAt(InTurn(Given(n, stride, nnz), n), stride, nnz, e);
  }

  /** Two queues, chunks of two, 8196 tasks: the last two tasks are in no queue. */
  lemma DropExample()
    ensures DropsLast(2, 2, 8196) && |OwnersInTurn(Given(2, 2, 8196), 2, 2, 8196)| == 8194
  {
    AllGivenUnlessDropped(2, 2, 8196);
  }
}
