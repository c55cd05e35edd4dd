/** Block arithmetic of the protocol: how a file of `totalSize` bytes is cut
    into blocks of nominal size `blockSize`, computed exactly as the source
    does it in int64/int32 arithmetic, and what that computation means when
    the sizes are in the range where nothing wraps. */
module Blocks {
  import opened Bytes

  /** protocol.go CalcBlockCount: `(totalSize + blockSize - 1) / blockSize` in
      int64 arithmetic with Go's truncating division. Within ValidSizes none
      of the conversions changes a value and the division is the ordinary one. */
  function CalcBlockCount(totalSize: int64, blockSize: int32): (count: int64)
    requires blockSize != 0
    ensures ValidSizes(totalSize, blockSize) ==> 0 <= count && count == (totalSize + blockSize - 1) / blockSize
  {
    CountFits(totalSize, blockSize);
    ToInt64(Quot(ToInt64(totalSize + blockSize - 1), blockSize))
  }

  /** protocol.go CalcBlockSize: -1 outside [0, blockCount), the nominal size
      for every block but the last, and the remainder (computed in int64 and
      converted to int32) for the last one. For valid sizes it is -1 exactly
      for the indices that name no block, and every block holds 1 to
      blockSize bytes. */
  function CalcBlockSize(totalSize: int64, blockSize: int32, blockIndex: int64): (size: int32)
    requires blockSize != 0
    ensures blockIndex < 0 || blockIndex >= CalcBlockCount(totalSize, blockSize) || CalcBlockCount(totalSize, blockSize) <= 0 ==>
      size == -1
    ensures ValidSizes(totalSize, blockSize) ==>
      (size == -1 <==> blockIndex < 0 || blockIndex >= CalcBlockCount(totalSize, blockSize))
    ensures ValidSizes(totalSize, blockSize) && 0 <= blockIndex < CalcBlockCount(totalSize, blockSize) ==>
      1 <= size <= blockSize
  {
    var count := CalcBlockCount(totalSize, blockSize);
    if blockIndex < 0 || blockIndex >= count || count <= 0 then -1
    else if blockIndex < count - 1 then blockSize
    else
      LastBlockFits(totalSize, blockSize);
      ToInt32(ToInt64(totalSize - ToInt64(blockSize * (count - 1))))
  }

  /** Sizes for which none of the int64 arithmetic above wraps: a non-negative
      total, a positive block size, and no overflow in `totalSize + blockSize - 1`. */
  predicate ValidSizes(totalSize: int, blockSize: int)
  {
    0 <= totalSize && 0 < blockSize && totalSize + blockSize - 1 < TwoTo63
  }

  lemma MulMonotonic(b: int, x: int, y: int)
    requires 0 <= b && x <= y
    ensures b * x <= b * y
  {
    assert b * y - b * x == b * (y - x);
  }

  /** For a positive divisor, `b * m <= a` exactly when `m <= a / b`. */
  lemma MulLeIffLeDiv(a: int, b: int, m: int)
    requires 0 <= a && 0 < b
    ensures b * m <= a <==> m <= a / b
  {
    assert a == b * (a / b) + a % b;
    if m <= a / b {
      MulMonotonic(b, m, a / b);
    } else {
      MulMonotonic(b, a / b + 1, m);
    }
  }

  /** Within ValidSizes, none of CalcBlockCount's conversions changes a value
      and the truncating division is the ordinary one. */
  lemma CountFits(totalSize: int64, blockSize: int32)
    requires blockSize != 0
    ensures ValidSizes(totalSize, blockSize) ==>
      && 0 <= (totalSize + blockSize - 1) / blockSize
      && ToInt64(Quot(ToInt64(totalSize + blockSize - 1), blockSize)) == (totalSize + blockSize - 1) / blockSize
  {
    if ValidSizes(totalSize, blockSize) {
      var q := totalSize + blockSize - 1;
      assert ToInt64(q) == q;
      var c := q / blockSize;
      assert Quot(q, blockSize) == c;
      assert q == blockSize * c + q % blockSize;
      MulMonotonic(c, 1, blockSize);
      assert 0 <= c <= q < TwoTo63;
    }
  }

  /** The last block's remainder, computed in int64 and converted to int32,
      is the exact remainder, between 1 and blockSize. */
  lemma LastBlockFits(totalSize: int64, blockSize: int32)
    requires blockSize != 0
    ensures var count := CalcBlockCount(totalSize, blockSize);
      var used := blockSize * (count - 1);
      ValidSizes(totalSize, blockSize) && count > 0 ==>
        && ToInt64(used) == used
        && 0 < totalSize - used <= blockSize
        && ToInt32(ToInt64(totalSize - ToInt64(used))) == totalSize - used
  {
    var count := CalcBlockCount(totalSize, blockSize);
    if ValidSizes(totalSize, blockSize) && count > 0 {
      CeilDivision(totalSize, blockSize, count);
      var used := blockSize * (count - 1);
      MulMonotonic(blockSize, 0, count - 1);
      assert 0 <= used < totalSize;
      assert ToInt64(used) == used;
      var last := totalSize - used;
      assert 0 < last <= blockSize;
      assert ToInt64(last) == last;
    }
  }

  /** c = (t + b - 1) / b is the least c with t <= b * c. */
  lemma CeilDivision(t: int, b: int, c: int)
    requires 0 <= t && 0 < b && c == (t + b - 1) / b
    ensures 0 <= c && (c == 0 <==> t == 0)
    ensures t <= b * c && (c > 0 ==> b * (c - 1) < t)
  {
    var q := t + b - 1;
    assert q == b * c + q % b;
    assert b * (c - 1) == b * c - b;
  }

  /** The block count is ceil(totalSize / blockSize): enough blocks to cover
      every byte, one fewer would not, and none for an empty file. */
  lemma BlockCountIsCeil(totalSize: int64, blockSize: int32)
    requires ValidSizes(totalSize, blockSize)
    ensures var count := CalcBlockCount(totalSize, blockSize);
      && count == (totalSize + blockSize - 1) / blockSize
      && 0 <= count
      && (count == 0 <==> totalSize == 0)
      && totalSize <= blockSize * count
      && (count > 0 ==> blockSize * (count - 1) < totalSize)
  {
    CeilDivision(totalSize, blockSize, CalcBlockCount(totalSize, blockSize));
  }

  /** Every block but the last has the nominal size; the last one holds the
      remaining `totalSize - blockSize * (blockCount - 1)` bytes, which is
      between 1 and blockSize, and is a full block when blockSize divides
      totalSize. */
  lemma BlockSizeInRange(totalSize: int64, blockSize: int32, blockIndex: int64)
    requires ValidSizes(totalSize, blockSize)
    requires 0 <= blockIndex < CalcBlockCount(totalSize, blockSize)
    ensures var count := CalcBlockCount(totalSize, blockSize);
      var size := CalcBlockSize(totalSize, blockSize, blockIndex);
      && 1 <= size <= blockSize
      && (blockIndex < count - 1 ==> size == blockSize)
      && (blockIndex == count - 1 ==> size == totalSize - blockSize * (count - 1))
      && (blockIndex == count - 1 && totalSize % blockSize == 0 ==> size == blockSize)
  {
    if blockIndex == CalcBlockCount(totalSize, blockSize) - 1 {
      LastBlockFits(totalSize, blockSize);
      if totalSize % blockSize == 0 {
        LastBlockOfMultiple(totalSize, blockSize);
      }
    }
  }

  lemma LastBlockOfMultiple(totalSize: int64, blockSize: int32)
    requires ValidSizes(totalSize, blockSize) && totalSize % blockSize == 0
    ensures var count := CalcBlockCount(totalSize, blockSize);
      totalSize - blockSize * (count - 1) == blockSize
  {
    ExactCeil(totalSize, blockSize, CalcBlockCount(totalSize, blockSize));
  }

  lemma ExactCeil(t: int, b: int, c: int)
    requires 0 <= t && 0 < b && t % b == 0 && c == (t + b - 1) / b
    ensures t - b * (c - 1) == b
  {
    var m := t / b;
    var q := t + b - 1;
    assert t == b * m + t % b;
    assert b * (m + 1) == b * m + b;
    MulLeIffLeDiv(q, b, m);
    MulLeIffLeDiv(q, b, m + 1);
    assert c == m;
    assert b * (m - 1) == b * m - b;
  }

  /** Byte offset of block i: the receiver writes it at `blockSize * i`; one
      past the last block is the end of the file. */
  function BlockStart(totalSize: int64, blockSize: int32, i: int): (start: int)
    requires blockSize != 0
    requires 0 <= i <= CalcBlockCount(totalSize, blockSize)
  {
    if i < CalcBlockCount(totalSize, blockSize) then blockSize * i else totalSize
  }

  /** Total size of the first n blocks. */
  function SumBlockSizes(totalSize: int64, blockSize: int32, n: nat): int
    requires blockSize != 0
    requires n <= CalcBlockCount(totalSize, blockSize)
  {
    if n == 0 then 0
    else SumBlockSizes(totalSize, blockSize, n - 1) + CalcBlockSize(totalSize, blockSize, n - 1)
  }

  /** The first n blocks end exactly where block n starts. */
  lemma {:induction false} SumBlockSizesIsStart(totalSize: int64, blockSize: int32, n: nat)
    requires ValidSizes(totalSize, blockSize)
    requires n <= CalcBlockCount(totalSize, blockSize)
    ensures SumBlockSizes(totalSize, blockSize, n) == BlockStart(totalSize, blockSize, n)
  {
    if n > 0 {
      var count := CalcBlockCount(totalSize, blockSize);
      SumBlockSizesIsStart(totalSize, blockSize, n - 1);
      BlockSizeInRange(totalSize, blockSize, n - 1);
      var size := CalcBlockSize(totalSize, blockSize, n - 1);
      assert SumBlockSizes(totalSize, blockSize, n) == BlockStart(totalSize, blockSize, n - 1) + size;
      assert BlockStart(totalSize, blockSize, n - 1) == blockSize * (n - 1);
      if n < count {
        assert blockSize * n == blockSize * (n - 1) + blockSize;
      }
    }
  }

  /** The sizes of all blocks add up to the file size. */
  lemma BlockSizesSumToTotal(totalSize: int64, blockSize: int32)
    requires ValidSizes(totalSize, blockSize)
    ensures SumBlockSizes(totalSize, blockSize, CalcBlockCount(totalSize, blockSize) as nat) == totalSize
  {
    BlockCountIsCeil(totalSize, blockSize);
    SumBlockSizesIsStart(totalSize, blockSize, CalcBlockCount(totalSize, blockSize) as nat);
  }

  /** Block i occupies [blockSize * i, blockSize * i + size), which is where
      block i + 1 starts, and lies inside the file. */
  lemma BlockBounds(totalSize: int64, blockSize: int32, i: int)
    requires ValidSizes(totalSize, blockSize)
    requires 0 <= i < CalcBlockCount(totalSize, blockSize)
    ensures BlockStart(totalSize, blockSize, i) == blockSize * i
    ensures blockSize * i + CalcBlockSize(totalSize, blockSize, i) == BlockStart(totalSize, blockSize, i + 1) <= totalSize
  {
    BlockSizeInRange(totalSize, blockSize, i);
    BlockCountIsCeil(totalSize, blockSize);
    if i + 1 < CalcBlockCount(totalSize, blockSize) {
      MulMonotonic(blockSize, i + 1, CalcBlockCount(totalSize, blockSize) - 1);
    }
  }

  /** Every byte k of the file belongs to exactly one block, block k / blockSize. */
  lemma ByteInBlockIff(totalSize: int64, blockSize: int32, k: int, i: int)
    requires ValidSizes(totalSize, blockSize)
    requires 0 <= k < totalSize
    requires 0 <= i < CalcBlockCount(totalSize, blockSize)
    ensures blockSize * i <= k < blockSize * i + CalcBlockSize(totalSize, blockSize, i) <==> i == k / blockSize
  {
    BlockBounds(totalSize, blockSize, i);
    BlockCountIsCeil(totalSize, blockSize);
    var count := CalcBlockCount(totalSize, blockSize);
    MulLeIffLeDiv(k, blockSize, i);
    MulLeIffLeDiv(k, blockSize, i + 1);
    if i == count - 1 {
      // k < totalSize <= blockSize * count, so k / blockSize < count
      MulLeIffLeDiv(k, blockSize, count);
    }
  }

  /** Byte k lies in block k / blockSize, which is a real block. */
  lemma ByteHasBlock(totalSize: int64, blockSize: int32, k: int)
    requires ValidSizes(totalSize, blockSize)
    requires 0 <= k < totalSize
    ensures 0 <= k / blockSize < CalcBlockCount(totalSize, blockSize)
  {
    BlockCountIsCeil(totalSize, blockSize);
    MulLeIffLeDiv(k, blockSize, CalcBlockCount(totalSize, blockSize));
  }

  /** How many leading blocks a source that delivers only `avail` bytes can
      fill completely. */
  function ReadableBlocks(totalSize: int64, blockSize: int32, avail: nat): int
    requires ValidSizes(totalSize, blockSize)
  {
    if avail >= totalSize then CalcBlockCount(totalSize, blockSize) else avail / blockSize
  }

  /** Block i can be read in full from `avail` bytes exactly when it is one of
      the first ReadableBlocks blocks; those blocks cover the first
      BlockStart(ReadableBlocks) bytes, which are all available. */
  lemma ReadableBlocksIff(totalSize: int64, blockSize: int32, avail: nat, i: int)
    requires ValidSizes(totalSize, blockSize)
    requires 0 <= i < CalcBlockCount(totalSize, blockSize)
    ensures 0 <= ReadableBlocks(totalSize, blockSize, avail) <= CalcBlockCount(totalSize, blockSize)
    ensures BlockStart(totalSize, blockSize, i + 1) <= avail <==> i < ReadableBlocks(totalSize, blockSize, avail)
  {
    var count := CalcBlockCount(totalSize, blockSize);
    BlockCountIsCeil(totalSize, blockSize);
    BlockBounds(totalSize, blockSize, i);
    if avail < totalSize {
      MulLeIffLeDiv(avail, blockSize, count);
      MulLeIffLeDiv(avail, blockSize, i + 1);
    }
  }

  lemma ReadablePrefixAvailable(totalSize: int64, blockSize: int32, avail: nat)
    requires ValidSizes(totalSize, blockSize)
    ensures var k := ReadableBlocks(totalSize, blockSize, avail);
      0 <= k <= CalcBlockCount(totalSize, blockSize) && BlockStart(totalSize, blockSize, k) <= avail
  {
    var count := CalcBlockCount(totalSize, blockSize);
    BlockCountIsCeil(totalSize, blockSize);
    if avail < totalSize {
      MulLeIffLeDiv(avail, blockSize, count);
      MulLeIffLeDiv(avail, blockSize, avail / blockSize);
    }
  }
}
