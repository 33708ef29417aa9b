/** Prefix sums, in one pass and in blocks
    (sansa/include/scan.h, sansa/include/pangolin_cpu/miner.h:7-17). */
module Scan {
  /** The sum of s[lo..hi). */
  function SumRange(s: seq<nat>, lo: nat, hi: nat): nat
    requires lo <= hi <= |s|
    decreases hi
  {
    if lo == hi then 0 else SumRange(s, lo, hi - 1) + s[hi - 1]
  }

  lemma {:induction false} SumRangeSplit(s: seq<nat>, a: nat, b: nat, c: nat)
    requires a <= b <= c <= |s|
    ensures SumRange(s, a, c) == SumRange(s, a, b) + SumRange(s, b, c)
    decreases c
  {
    if b < c {
      SumRangeSplit(s, a, b, c - 1);
    }
  }

  /** Every entry is the sum of what comes before it. */
  ghost predicate IsPrefixSum(s: seq<nat>, prefix: seq<nat>) {
    && |prefix| == |s| + 1
    && forall i :: 0 <= i <= |s| ==> prefix[i] == SumRange(s, 0, i)
  }

  lemma PrefixMonotone(s: seq<nat>, prefix: seq<nat>)
    requires IsPrefixSum(s, prefix)
    ensures forall i, j :: 0 <= i <= j < |prefix| ==> prefix[i] <= prefix[j]
  {
    forall i, j | 0 <= i <= j < |prefix| ensures prefix[i] <= prefix[j] {
      SumRangeSplit(s, 0, i, j);
    }
  }

  method PrefixSum(input: seq<nat>) returns (prefix: seq<nat>)
    ensures IsPrefixSum(input, prefix)
  {
    var sums := new nat[|input| + 1];
    var total := 0;
    for n := 0 to |input|
      invariant total == SumRange(input, 0, n)
      invariant forall i :: 0 <= i < n ==> sums[i] == SumRange(input, 0, i)
    {
      sums[n] := total;
      total := total + input[n];
    }
    sums[|input|] := total;
    prefix := sums[..];
  }

  function Min(a: nat, b: nat): nat {
    if a < b then a else b
  }

  /** The first position of a block; the block after the last one starts at the end. */
  function BlockStart(n: nat, blockSize: nat, block: nat): (e: nat)
    ensures e <= n
  {
    Min(block * blockSize, n)
  }

  lemma BlocksCover(n: nat, blockSize: nat)
    requires blockSize > 0
    ensures ((n + blockSize - 1) / blockSize) * blockSize >= n
  {
    var q := (n + blockSize - 1) / blockSize;
    assert (n + blockSize - 1) == q * blockSize + (n + blockSize - 1) % blockSize;
  }

  lemma NextBlock(n: nat, blockSize: nat, block: nat)
    ensures BlockStart(n, blockSize, block) <= BlockStart(n, blockSize, block + 1)
  {
    assert (block + 1) * blockSize == block * blockSize + blockSize;
  }

  /** The sums of the blocks. */
  method BlockSums(input: seq<nat>, blockSize: nat, numBlocks: nat) returns (localSums: seq<nat>)
    requires blockSize > 0
    ensures |localSums| == numBlocks
    ensures forall b :: 0 <= b < numBlocks ==>
              BlockStart(|input|, blockSize, b) <= BlockStart(|input|, blockSize, b + 1) &&
              localSums[b] == SumRange(input, BlockStart(|input|, blockSize, b), BlockStart(|input|, blockSize, b + 1))
  {
    localSums := [];
    for block := 0 to numBlocks
      invariant |localSums| == block
      invariant forall b :: 0 <= b < block ==>
                  BlockStart(|input|, blockSize, b) <= BlockStart(|input|, blockSize, b + 1) &&
                  localSums[b] == SumRange(input, BlockStart(|input|, blockSize, b),
                                           BlockStart(|input|, blockSize, b + 1))
    {
      var start := BlockStart(|input|, blockSize, block);
      NextBlock(|input|, blockSize, block);
      var lsum := 0;
      var blockEnd := Min((block + 1) * blockSize, |input|);
      for i := start to blockEnd
        invariant lsum == SumRange(input, start, i)
      {
        lsum := lsum + input[i];
      }
      localSums := localSums + [lsum];
    }
  }

  lemma FirstBlock(n: nat, blockSize: nat)
    ensures BlockStart(n, blockSize, 0) == 0
  {
  }

  /** The second pass: each block from its own offset. */
  method FillBlocks(input: seq<nat>, blockSize: nat, numBlocks: nat, bulkPrefix: seq<nat>, sums: array<nat>)
    requires blockSize > 0 && |bulkPrefix| == numBlocks && sums.Length == |input| + 1
    requires forall b :: 0 <= b < numBlocks ==> bulkPrefix[b] == SumRange(input, 0, BlockStart(|input|, blockSize, b))
    modifies sums
    ensures forall i :: 0 <= i < BlockStart(|input|, blockSize, numBlocks) ==> sums[i] == SumRange(input, 0, i)
  {
    hide BlockStart;
    var n := |input|;
    FirstBlock(n, blockSize);
    for block := 0 to numBlocks
      invariant forall i :: 0 <= i < BlockStart(n, blockSize, block) ==> sums[i] == SumRange(input, 0, i)
    {
      NextBlock(n, blockSize, block);
      var localTotal := bulkPrefix[block];
      var blockEnd := BlockStart(n, blockSize, block + 1);
      for i := BlockStart(n, blockSize, block) to blockEnd
        invariant localTotal == SumRange(input, 0, i)
        invariant forall k :: 0 <= k < i ==> sums[k] == SumRange(input, 0, k)
      {
        sums[i] := localTotal;
        localTotal := localTotal + input[i];
      }
    }
  }

  /** The blocked scan gives the same sums as the one-pass scan, for every block size. */
  method ParallelPrefixSum(input: seq<nat>, blockSize: nat) returns (prefix: seq<nat>)
    requires blockSize > 0
    ensures IsPrefixSum(input, prefix)
  {
    var n := |input|;
    var numBlocks := (n + blockSize - 1) / blockSize;
    BlocksCover(n, blockSize);
    var localSums := BlockSums(input, blockSize, numBlocks);
    var sums := new nat[n + 1];
    var total := 0;
    var bulkPrefix: seq<nat> := [];
    for block := 0 to numBlocks
      invariant |bulkPrefix| == block
      invariant total == SumRange(input, 0, BlockStart(n, blockSize, block))
      invariant forall b :: 0 <= b < block ==> bulkPrefix[b] == SumRange(input, 0, BlockStart(n, blockSize, b))
    {
      bulkPrefix := bulkPrefix + [total];
      SumRangeSplit(input, 0, BlockStart(n, blockSize, block), BlockStart(n, blockSize, block + 1));
      total := total + localSums[block];
    }
    FillBlocks(input, blockSize, numBlocks, bulkPrefix, sums);
    sums[n] := total;
    prefix := sums[..];
  }
}
