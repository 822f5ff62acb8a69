/** Thinning a long run of heartbeats to at most `max` of them, in evenly spread blocks
    (tools/fixturegen/main.go downsample). */
module Downsample {
  import opened Basics

  const BLOCKS: int := 200

  datatype Outcome<T> = Kept(rows: seq<T>) | DivisionByZero

  function BlockSize(max: int): (b: int)
    requires max > 0
    ensures b >= 3 && (b > 3 ==> 200 * b <= max) && max < 200 * (b + 1)
  {
    if max / BLOCKS < 3 then 3 else max / BLOCKS
  }

  /** The number of blocks that `max` has room for. */
  function Blocks(max: int): (q: int)
    requires max >= 3
    ensures q >= 1 && q * BlockSize(max) <= max < (q + 1) * BlockSize(max)
  {
    DivisionBounds(max, BlockSize(max));
    max / BlockSize(max)
  }

  lemma DivisionBounds(a: int, b: int)
    requires a >= 0 && b > 0
    ensures a / b >= 0 && (a / b) * b <= a < (a / b + 1) * b
  {}

  function Stride(n: nat, max: int): (s: int)
    requires 3 <= max < n
    ensures s * Blocks(max) <= n < (s + 1) * Blocks(max)
  {
    DivisionBounds(n, Blocks(max));
    n / Blocks(max)
  }

  /** Blocks never overlap: the stride is at least a block, before any clamping. */
  lemma StrideFitsBlock(n: nat, max: int)
    requires 3 <= max < n
    ensures Stride(n, max) >= BlockSize(max)
  {
    var q, s, b := Blocks(max), Stride(n, max), BlockSize(max);
    if s < b { MulMono(q, s + 1, b); }
  }

  /** Where the `k`-th kept row comes from. */
  function Index(k: nat, block: int, stride: int): int
    requires block > 0
  {
    (k / block) * stride + k % block
  }

  lemma IndexInBlock(b: nat, d: nat, block: int, stride: int)
    requires 0 <= d < block
    ensures b * block + d >= 0 && Index(b * block + d, block, stride) == b * stride + d
  {
    QuotientIs(b * block + d, b, d, block);
  }

  lemma QuotientIs(k: nat, b: nat, d: nat, block: int)
    requires 0 <= d < block && k == b * block + d
    ensures k / block == b && k % block == d
  {
    var q, r := k / block, k % block;
    assert k == q * block + r;
    assert (q + 1) * block == q * block + block && (b + 1) * block == b * block + block;
    if q < b { MulMono(block, q + 1, b); }
    if q > b { MulMono(block, b + 1, q); }
  }

  /** Kept rows are picked in strictly increasing order. */
  lemma {:induction false} IndexIncreases(j: nat, k: nat, block: int, stride: int)
    requires block > 0 && stride >= block && j < k
    ensures Index(j, block, stride) < Index(k, block, stride)
    decreases k
  {
    if j + 1 < k { IndexIncreases(j, k - 1, block, stride); }
    IndexStep(k - 1, block, stride);
  }

  lemma IndexStep(k: nat, block: int, stride: int)
    requires block > 0 && stride >= block
    ensures Index(k, block, stride) < Index(k + 1, block, stride) <= Index(k, block, stride) + stride
  {
    var b, d := k / block, k % block;
    assert k == b * block + d;
    if d + 1 < block {
      QuotientIs(k + 1, b, d + 1, block);
    } else {
      assert k + 1 == (b + 1) * block;
      QuotientIs(k + 1, b + 1, 0, block);
      assert (b + 1) * stride == b * stride + stride;
    }
  }

  /** The rows so far are those the index names. */
  predicate Picked<T(==)>(out: seq<T>, rows: seq<T>, block: int, stride: int)
    requires block > 0
  {
    forall k: nat :: k < |out| ==> 0 <= Index(k, block, stride) < |rows| && out[k] == rows[Index(k, block, stride)]
  }

  /** downsample.  It fails exactly when at most two of more rows may stay; otherwise, of too many
      rows, it keeps between `max` and one block less, picked by `Index`. */
  method Downsample<T(==)>(rows: seq<T>, max: int) returns (r: Outcome<T>)
    ensures r.DivisionByZero? <==> 1 <= max <= 2 && |rows| > max
    ensures max <= 0 || |rows| <= max ==> r == Kept(rows)
    ensures 3 <= max < |rows| ==>
              && max - BlockSize(max) < |r.rows| <= max
              && Blocks(max) * BlockSize(max) <= |r.rows|
              && Picked(r.rows, rows, BlockSize(max), Stride(|rows|, max))
  {
    if max <= 0 || |rows| <= max { return Kept(rows); }
    var blockSize := max / BLOCKS;
    if blockSize < 3 { blockSize := 3; }
    if max / blockSize == 0 { return DivisionByZero; }
    var stride := |rows| / (max / blockSize);
    StrideFitsBlock(|rows|, max);
    if stride < blockSize { stride := blockSize; }
    var out := Thin(rows, max, blockSize, stride, Blocks(max));
    assert (Blocks(max) + 1) * blockSize == Blocks(max) * blockSize + blockSize;
    r := Kept(out);
  }

  /** The two loops. */
  method Thin<T(==)>(rows: seq<T>, max: int, blockSize: int, stride: int, ghost q: int) returns (out: seq<T>)
    requires 3 <= max < |rows| && blockSize >= 3 && stride >= blockSize && q >= 1
    requires q * blockSize <= max && stride * q <= |rows|
    ensures q * blockSize <= |out| <= max && Picked(out, rows, blockSize, stride)
  {
    out := [];
    var i := 0;
    ghost var b: nat := 0;
    while i < |rows| && |out| < max
      invariant i == b * stride && |out| <= max && Picked(out, rows, blockSize, stride)
      invariant |out| == max || i >= |rows| || |out| == b * blockSize
      invariant |out| == max || b >= q ==> |out| >= q * blockSize
      decreases |rows| - i
    {
      ghost var was := |out|;
      out := CopyBlock(rows, max, blockSize, stride, out, i, b);
      ThinStep(b, q, blockSize, stride, i, |rows|, max, was, |out|);
      i := i + stride;
      b := b + 1;
    }
    if b < q { MulMono(stride, b + 1, q); }
  }

  /** What one block, whole or cut short, adds to the count. */
  lemma ThinStep(b: nat, q: int, blockSize: int, stride: int, i: int, n: nat, max: int, was: int, now: int)
    requires i == b * stride && was == b * blockSize && blockSize > 0 && stride >= blockSize
    requires stride * q <= n && q * blockSize <= max
    requires was <= now && (now == max || i + blockSize > n || now == was + blockSize)
    ensures i + stride == (b + 1) * stride
    ensures now == max || i + stride >= n || now == (b + 1) * blockSize
    ensures now == max || b + 1 >= q ==> now >= q * blockSize
  {
    assert (b + 1) * stride == b * stride + stride && (b + 1) * blockSize == b * blockSize + blockSize;
    if b < q {
      MulMono(stride, b + 1, q);
      MulMono(blockSize, b + 1, q);
    } else {
      MulMono(blockSize, q, b);
    }
    if b + 1 >= q { MulMono(blockSize, q, b + 1); }
  }

  /** The inner loop: a block from `i` on, cut short only by the end of the rows or by `max`. */
  method CopyBlock<T(==)>(rows: seq<T>, max: int, blockSize: int, stride: int, start: seq<T>, i: nat, ghost b: nat)
    returns (out: seq<T>)
    requires blockSize > 0 && i == b * stride && i < |rows| && |start| == b * blockSize && |start| < max
    requires Picked(start, rows, blockSize, stride)
    ensures |out| <= max && Picked(out, rows, blockSize, stride)
    ensures |out| == max || i + blockSize > |rows| || |out| == |start| + blockSize
    ensures |out| >= |start|
  {
    out := start;
    var j := i;
    while j < i + blockSize && j < |rows| && |out| < max
      invariant i <= j <= i + blockSize && j <= |rows| && |out| == |start| + (j - i) && |out| <= max
      invariant Picked(out, rows, blockSize, stride)
    {
      IndexInBlock(b, j - i, blockSize, stride);
      out := out + [rows[j]];
      j := j + 1;
    }
  }

  /** The `q * b`-th kept row lies less than a stride and `q` before the end. */
  lemma BlocksReachEnd(n: nat, q: int, b: int, s: int)
    requires q >= 1 && b >= 1 && s >= b && q * b >= 1 && n < (s + 1) * q
    ensures n - Index(q * b - 1, b, s) < s + q
  {
    assert (q - 1) * b + (b - 1) == q * b - 1;
    IndexInBlock(q - 1, b - 1, b, s);
    assert (q - 1) * s == q * s - s && (s + 1) * q == q * s + q;
  }

  /** The kept rows span the window: they start at the first row, each follows the one before
      within a stride, and the last is less than a stride and the number of blocks from the end. */
  lemma KeptSpansWindow(n: nat, max: int, kept: nat)
    requires 3 <= max < n && Blocks(max) * BlockSize(max) <= kept
    ensures kept >= 3 && Index(0, BlockSize(max), Stride(n, max)) == 0
    ensures Close(kept, BlockSize(max), Stride(n, max))
    ensures n - Index(kept - 1, BlockSize(max), Stride(n, max)) < Stride(n, max) + Blocks(max)
  {
    var q, s, b := Blocks(max), Stride(n, max), BlockSize(max);
    StrideFitsBlock(n, max);
    MulMono(b, 1, q);
    QuotientIs(0, 0, 0, b);
    EachIsClose(kept, b, s);
    BlocksReachEnd(n, q, b, s);
    if q * b < kept { IndexIncreases(q * b - 1, kept - 1, b, s); }
  }

  predicate Close(kept: nat, block: int, stride: int)
    requires block > 0
  {
    forall k: nat :: k < kept ==>
      Index(k, block, stride) < Index(k + 1, block, stride) <= Index(k, block, stride) + stride
  }

  lemma EachIsClose(kept: nat, block: int, stride: int)
    requires block > 0 && stride >= block
    ensures Close(kept, block, stride)
  {
    forall k: nat | k < kept
      ensures Index(k, block, stride) < Index(k + 1, block, stride) <= Index(k, block, stride) + stride
    {
      IndexStep(k, block, stride);
    }
  }
}
