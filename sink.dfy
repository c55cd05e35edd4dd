/** The receiver's output file as a byte sequence: what `os.File.WriteAt` and
    `os.File.Truncate` do to its contents, and why the blocks of a source
    written at their offsets, in any order and with repetitions, rebuild it. */
module Sink {
  import opened Bytes
  import opened Blocks

  function Max(a: int, b: int): int { if a < b then b else a }

  /** `WriteAt(data, off)` on a file holding `content`, for off >= 0: the
      data replaces bytes [off, off + |data|), a write that starts past the
      end leaves zero bytes in the gap, and an empty write changes nothing. */
  function WriteAt(content: Bytes, off: nat, data: Bytes): (r: Bytes)
    ensures data == [] ==> r == content
    ensures data != [] ==> |r| == Max(|content|, off + |data|)
    ensures data != [] ==> forall k | 0 <= k < |r| ::
      r[k] == if off <= k < off + |data| then data[k - off]
              else if k < |content| then content[k]
              else 0
  {
    if data == [] then content
    else
      var prefix := if off <= |content| then content[..off] else content + Zeros(off - |content|);
      var suffix := if off + |data| < |content| then content[off + |data|..] else [];
      prefix + data + suffix
  }

  /** `Truncate(n)` for n >= 0: the file keeps its first n bytes, or is
      extended with zero bytes to length n. */
  function Truncate(content: Bytes, n: nat): (r: Bytes)
    ensures |r| == n
    ensures forall k | 0 <= k < n :: r[k] == if k < |content| then content[k] else 0
  {
    if n <= |content| then content[..n] else content + Zeros(n - |content|)
  }

  /** The data of block i of a source of totalSize bytes. */
  function BlockOf(src: Bytes, totalSize: int64, blockSize: int32, i: int): (data: Bytes)
    requires ValidSizes(totalSize, blockSize) && |src| == totalSize
    requires 0 <= i < CalcBlockCount(totalSize, blockSize)
    ensures |data| == CalcBlockSize(totalSize, blockSize, i)
  {
    BlockBounds(totalSize, blockSize, i);
    BlockSizeInRange(totalSize, blockSize, i);
    var start, size := blockSize * i, CalcBlockSize(totalSize, blockSize, i);
    MulMonotonic(blockSize, 0, i);
    src[start..start + size]
  }

  predicate IndicesInRange(totalSize: int64, blockSize: int32, order: seq<int>)
    requires blockSize != 0
  {
    forall j | 0 <= j < |order| :: 0 <= order[j] < CalcBlockCount(totalSize, blockSize)
  }

  /** The file after each block named in `order` was written at its offset,
      in that order. */
  function ApplyBlocks(content: Bytes, src: Bytes, totalSize: int64, blockSize: int32, order: seq<int>): Bytes
    requires ValidSizes(totalSize, blockSize) && |src| == totalSize
    requires IndicesInRange(totalSize, blockSize, order)
  {
    if order == [] then content
    else
      var i := order[|order| - 1];
      var before := ApplyBlocks(content, src, totalSize, blockSize, order[..|order| - 1]);
      WriteAt(before, blockSize * i, BlockOf(src, totalSize, blockSize, i))
  }

  /** Writing one block into a file of totalSize bytes keeps its length and
      changes exactly the bytes of that block. */
  lemma WriteBlock(content: Bytes, src: Bytes, totalSize: int64, blockSize: int32, i: int)
    requires ValidSizes(totalSize, blockSize) && |src| == totalSize && |content| == totalSize
    requires 0 <= i < CalcBlockCount(totalSize, blockSize)
    ensures var r := WriteAt(content, blockSize * i, BlockOf(src, totalSize, blockSize, i));
      && |r| == totalSize
      && forall k | 0 <= k < totalSize :: r[k] == if k / blockSize == i then src[k] else content[k]
  {
    var data := BlockOf(src, totalSize, blockSize, i);
    BlockBounds(totalSize, blockSize, i);
    BlockSizeInRange(totalSize, blockSize, i);
    var r := WriteAt(content, blockSize * i, data);
    forall k | 0 <= k < totalSize
      ensures r[k] == if k / blockSize == i then src[k] else content[k]
    {
      ByteInBlockIff(totalSize, blockSize, k, i);
    }
  }

  /** After writing the blocks named in `order` into a file of totalSize
      bytes, each byte holds the source byte when its block was written and
      its old value otherwise. */
  lemma {:induction false} ApplyBlocksContents(content: Bytes, src: Bytes, totalSize: int64, blockSize: int32, order: seq<int>)
    requires ValidSizes(totalSize, blockSize) && |src| == totalSize && |content| == totalSize
    requires IndicesInRange(totalSize, blockSize, order)
    ensures var r := ApplyBlocks(content, src, totalSize, blockSize, order);
      && |r| == totalSize
      && forall k | 0 <= k < totalSize :: r[k] == if k / blockSize in order then src[k] else content[k]
    decreases |order|
  {
    if order != [] {
      var init := order[..|order| - 1];
      var i := order[|order| - 1];
      ApplyBlocksContents(content, src, totalSize, blockSize, init);
      ApplyLast(content, src, totalSize, blockSize, order);
      assert order == init + [i];
      WrittenOnce(ApplyBlocks(content, src, totalSize, blockSize, order), ApplyBlocks(content, src, totalSize, blockSize, init),
                  content, src, blockSize, init, i);
    }
  }

  /** The last write of `order` changes exactly the bytes of its block. */
  lemma ApplyLast(content: Bytes, src: Bytes, totalSize: int64, blockSize: int32, order: seq<int>)
    requires ValidSizes(totalSize, blockSize) && |src| == totalSize && |content| == totalSize
    requires IndicesInRange(totalSize, blockSize, order) && order != []
    requires |ApplyBlocks(content, src, totalSize, blockSize, order[..|order| - 1])| == totalSize
    ensures var r, before, i := ApplyBlocks(content, src, totalSize, blockSize, order),
                                ApplyBlocks(content, src, totalSize, blockSize, order[..|order| - 1]), order[|order| - 1];
      && |r| == totalSize
      && forall k | 0 <= k < totalSize :: r[k] == if k / blockSize == i then src[k] else before[k]
  {
    WriteBlock(ApplyBlocks(content, src, totalSize, blockSize, order[..|order| - 1]), src, totalSize, blockSize, order[|order| - 1]);
  }

  /** One more block write on top of the writes of `init`: a byte holds the
      source byte when its block is among init + [i]. */
  lemma WrittenOnce(r: Bytes, before: Bytes, content: Bytes, src: Bytes, blockSize: int, init: seq<int>, i: int)
    requires 0 < blockSize && |r| == |before| == |content| == |src|
    requires forall k | 0 <= k < |src| :: before[k] == if k / blockSize in init then src[k] else content[k]
    requires forall k | 0 <= k < |src| :: r[k] == if k / blockSize == i then src[k] else before[k]
    ensures forall k | 0 <= k < |src| :: r[k] == if k / blockSize in init + [i] then src[k] else content[k]
  {
    forall k | 0 <= k < |src|
      ensures r[k] == if k / blockSize in init + [i] then src[k] else content[k]
    {
      var b := k / blockSize;
      assert (b in init + [i]) == (b in init || b == i);
    }
  }

  /** Whatever the file held and in whatever order the blocks arrive, once
      every block has been written at least once the file is the source. */
  lemma Reassembly(content: Bytes, src: Bytes, totalSize: int64, blockSize: int32, order: seq<int>)
    requires ValidSizes(totalSize, blockSize) && |src| == totalSize && |content| == totalSize
    requires IndicesInRange(totalSize, blockSize, order)
    requires forall i | 0 <= i < CalcBlockCount(totalSize, blockSize) :: i in order
    ensures ApplyBlocks(content, src, totalSize, blockSize, order) == src
  {
    ApplyBlocksContents(content, src, totalSize, blockSize, order);
    var r := ApplyBlocks(content, src, totalSize, blockSize, order);
    forall k | 0 <= k < totalSize
      ensures r[k] == src[k]
    {
      ByteHasBlock(totalSize, blockSize, k);
    }
  }

  /** The file depends only on which blocks were written: not on their
      order, nor on how often each was written (so the block the receiver
      writes a second time on an EOF packet changes nothing). */
  lemma OrderIrrelevant(content: Bytes, src: Bytes, totalSize: int64, blockSize: int32, o1: seq<int>, o2: seq<int>)
    requires ValidSizes(totalSize, blockSize) && |src| == totalSize && |content| == totalSize
    requires IndicesInRange(totalSize, blockSize, o1) && IndicesInRange(totalSize, blockSize, o2)
    requires forall i :: i in o1 <==> i in o2
    ensures ApplyBlocks(content, src, totalSize, blockSize, o1) == ApplyBlocks(content, src, totalSize, blockSize, o2)
  {
    ApplyBlocksContents(content, src, totalSize, blockSize, o1);
    ApplyBlocksContents(content, src, totalSize, blockSize, o2);
  }
}
