/** client.go: the sending side. `ReadBlocks` cuts the source file into
    blocks, feeds each block's bytes to a running hash and sends the block on
    the block channel; each tunnel (one connection) writes the metadata
    packet, then every block it takes off the channel, then the EOF packet
    carrying the digest. What the producer sends is stated by the pure
    function `Publish`, what a tunnel writes by `TunnelPackets`. */
module Sender {
  import opened Bytes
  import opened Stream
  import opened Codec
  import opened Blocks
  import opened Packets

  // ------------------------------------------------------------ file names

  const Slash: byte := 47
  const Dot: byte := 46

  /** The path without its trailing slashes. */
  function TrimSlashes(path: Bytes): (r: Bytes)
    ensures r <= path && (r == [] || r[|r| - 1] != Slash)
    decreases |path|
  {
    if path != [] && path[|path| - 1] == Slash then TrimSlashes(path[..|path| - 1]) else path
  }

  /** Everything after the last slash of path: all of it when it has none. */
  function AfterLastSlash(path: Bytes): (r: Bytes)
    ensures |r| <= |path| && Slash !in r
    decreases |path|
  {
    if path == [] || path[|path| - 1] == Slash then []
    else AfterLastSlash(path[..|path| - 1]) + [path[|path| - 1]]
  }

  /** filepath.Base on a slash-separated path: "." for the empty path, "/"
      for a path made of slashes only, and otherwise the last element once
      trailing slashes are dropped. The name a file is sent under is never
      empty, and holds a slash only when it is the root "/". */
  function Base(path: Bytes): (name: Bytes)
    ensures name != []
    ensures Slash in name ==> name == [Slash]
  {
    if path == [] then [Dot]
    else
      var last := AfterLastSlash(TrimSlashes(path));
      if last == [] then [Slash] else last
  }

  /** The base of `dir/name`, or of `name` alone, is name, for a non-empty
      name without slashes; trailing slashes do not change it. */
  lemma {:induction false} BaseOfJoin(dir: Bytes, name: Bytes, trailing: nat)
    requires name != [] && Slash !in name
    ensures Base(dir + [Slash] + name + SlashesOf(trailing)) == name
    ensures Base(name + SlashesOf(trailing)) == name
  {
    TrimAppended(dir + [Slash] + name, trailing);
    TrimAppended(name, trailing);
    LastElement(dir + [Slash], name);
    LastElement([], name);
    assert [] + name == name;
  }

  function SlashesOf(n: nat): (r: Bytes)
    ensures |r| == n && forall k | 0 <= k < n :: r[k] == Slash
  {
    if n == 0 then [] else SlashesOf(n - 1) + [Slash]
  }

  lemma {:induction false} TrimAppended(path: Bytes, n: nat)
    requires path != [] && path[|path| - 1] != Slash
    ensures TrimSlashes(path + SlashesOf(n)) == path
    decreases n
  {
    if n == 0 {
      assert path + SlashesOf(0) == path;
    } else {
      var longer := path + SlashesOf(n);
      assert longer[..|longer| - 1] == path + SlashesOf(n - 1);
      TrimAppended(path, n - 1);
    }
  }

  lemma AfterLastSlashSnoc(path: Bytes, b: byte)
    requires b != Slash
    ensures AfterLastSlash(path + [b]) == AfterLastSlash(path) + [b]
  {
    assert (path + [b])[..|path|] == path;
  }

  lemma {:induction false} LastElement(prefix: Bytes, name: Bytes)
    requires prefix == [] || prefix[|prefix| - 1] == Slash
    requires Slash !in name
    ensures AfterLastSlash(prefix + name) == name
    decreases |name|
  {
    if name == [] {
      assert prefix + name == prefix;
    } else {
      var init, last := name[..|name| - 1], name[|name| - 1];
      assert name == init + [last];
      LastElement(prefix, init);
      AfterLastSlashSnoc(prefix + init, last);
      assert prefix + init + [last] == prefix + name;
    }
  }

  // -------------------------------------------------------- the hash state

  /** `client.hasher`, an MD5 state: the bytes written to it so far. The
      digest function itself is a parameter. */
  class Hasher {
    const md5: Bytes -> Bytes
    var fed: Bytes

    constructor (md5: Bytes -> Bytes)
      ensures this.md5 == md5 && fed == []
    {
      this.md5 := md5;
      fed := [];
    }

    method Write(bs: Bytes)
      modifies this
      ensures fed == old(fed) + bs
    {
      fed := fed + bs;
    }

    /** `hasher.Sum(nil)`: the digest of everything written. */
    function Sum(): (digest: Bytes)
      reads this
    {
      md5(fed)
    }
  }

  // ------------------------------------------------------- the block channel

  function Item(b: BlockInfo?): Option<BlockFields>
    reads b
  {
    if b == null then None else Some(b.Fields())
  }

  /** The blocks a sequence of channel items currently holds (None for nil). */
  function Values(items: seq<BlockInfo?>): (vs: seq<Option<BlockFields>>)
    reads items
    ensures |vs| == |items|
    decreases |items|
  {
    if items == [] then [] else Values(items[..|items| - 1]) + [Item(items[|items| - 1])]
  }

  lemma {:induction false} ValuesAt(items: seq<BlockInfo?>, j: nat)
    requires j < |items|
    ensures Values(items)[j] == Item(items[j])
    decreases |items|
  {
    if j < |items| - 1 {
      ValuesAt(items[..|items| - 1], j);
    }
  }

  lemma ValuesSnoc(items: seq<BlockInfo?>, b: BlockInfo?)
    ensures Values(items + [b]) == Values(items) + [Item(b)]
  {
    assert (items + [b])[..|items|] == items;
  }

  /** `blockChannel`: every item sent on it in order (nil included), how many
      receivers have taken, and whether it is closed. */
  class Channel {
    var items: seq<BlockInfo?>
    var taken: nat
    var closed: bool

    ghost predicate Valid()
      reads this
    {
      taken <= |items|
    }

    constructor ()
      ensures Valid() && items == [] && taken == 0 && !closed
    {
      items, taken, closed := [], 0, false;
    }

    /** `blockChannel <- b`; sending on a closed channel panics. */
    method Send(b: BlockInfo?)
      requires Valid() && !closed
      modifies this
      ensures Valid() && items == old(items) + [b] && taken == old(taken) && !closed
    {
      items := items + [b];
    }

    /** `close(blockChannel)`; closing twice panics. */
    method Close()
      requires Valid() && !closed
      modifies this
      ensures Valid() && items == old(items) && taken == old(taken) && closed
    {
      closed := true;
    }

    /** `<-blockChannel`: the oldest item not yet taken, or nil once the
        channel is closed and drained. A receive on an open, drained channel
        waits for the producer, so it is only called when it can return. */
    method Receive() returns (b: BlockInfo?)
      requires Valid() && (taken < |items| || closed)
      modifies this
      ensures Valid() && items == old(items) && closed == old(closed)
      ensures old(taken) < |items| ==> b == items[old(taken)] && taken == old(taken) + 1
      ensures old(taken) == |items| ==> b == null && taken == old(taken)
    {
      if taken < |items| {
        b := items[taken];
        taken := taken + 1;
      } else {
        b := null;
      }
    }
  }

  // ---------------------------------------------------- what ReadBlocks sends

  /** Block j of the source as ReadBlock builds it from bytes data: index j,
      CalcBlockSize(j) bytes, read from where the previous blocks ended. */
  function SourceBlock(data: Bytes, totalSize: int64, blockSize: int32, j: int): (b: BlockFields)
    requires ValidSizes(totalSize, blockSize) && 0 <= j < CalcBlockCount(totalSize, blockSize)
    requires BlockStart(totalSize, blockSize, j + 1) <= |data|
    ensures b.blockIndex == j && b.size == CalcBlockSize(totalSize, blockSize, j)
    ensures var lo, hi := BlockStart(totalSize, blockSize, j), BlockStart(totalSize, blockSize, j + 1);
      0 <= lo <= hi && b.buffer == data[lo..hi]
    ensures DataInBuffer(b) && GetData(b) == b.buffer
  {
    BlockBounds(totalSize, blockSize, j);
    BlockSizeInRange(totalSize, blockSize, j);
    var start := BlockStart(totalSize, blockSize, j);
    MulMonotonic(blockSize, 0, j);
    BlockFields(j, CalcBlockSize(totalSize, blockSize, j), data[start..BlockStart(totalSize, blockSize, j + 1)])
  }

  /** What ReadBlocks sends for block j: the block when the source holds
      all of its bytes, nil otherwise. */
  function Published(data: Bytes, totalSize: int64, blockSize: int32, j: int): Option<BlockFields>
    requires ValidSizes(totalSize, blockSize) && 0 <= j < CalcBlockCount(totalSize, blockSize)
  {
    ReadableBlocksIff(totalSize, blockSize, |data|, j);
    if j < ReadableBlocks(totalSize, blockSize, |data|) then Some(SourceBlock(data, totalSize, blockSize, j)) else None
  }

  function PublishFrom(data: Bytes, totalSize: int64, blockSize: int32, n: nat): (vs: seq<Option<BlockFields>>)
    requires ValidSizes(totalSize, blockSize) && n <= CalcBlockCount(totalSize, blockSize)
    ensures |vs| == n
  {
    if n == 0 then [] else PublishFrom(data, totalSize, blockSize, n - 1) + [Published(data, totalSize, blockSize, n - 1)]
  }

  /** Everything ReadBlocks sends on the channel before closing it, for a
      source file holding data. */
  function Publish(data: Bytes, totalSize: int64, blockSize: int32): (vs: seq<Option<BlockFields>>)
    requires ValidSizes(totalSize, blockSize)
    ensures |vs| == CalcBlockCount(totalSize, blockSize)
  {
    PublishFrom(data, totalSize, blockSize, CalcBlockCount(totalSize, blockSize) as nat)
  }

  /** The j-th item of the first n. */
  lemma {:induction false} PublishFromAt(data: Bytes, totalSize: int64, blockSize: int32, n: nat, j: nat)
    requires ValidSizes(totalSize, blockSize) && n <= CalcBlockCount(totalSize, blockSize) && j < n
    ensures PublishFrom(data, totalSize, blockSize, n)[j] == Published(data, totalSize, blockSize, j)
    decreases n
  {
    if j < n - 1 {
      PublishFromAt(data, totalSize, blockSize, n - 1, j);
    }
  }

  /** ReadBlocks sends one item per block, in index order: block j when the
      source holds every byte up to the end of block j, and nil otherwise. */
  lemma PublishShape(data: Bytes, totalSize: int64, blockSize: int32, j: int)
    requires ValidSizes(totalSize, blockSize) && 0 <= j < CalcBlockCount(totalSize, blockSize)
    ensures |Publish(data, totalSize, blockSize)| == CalcBlockCount(totalSize, blockSize)
    ensures var v := Publish(data, totalSize, blockSize)[j];
      && (v.Some? <==> BlockStart(totalSize, blockSize, j + 1) <= |data|)
      && (v.Some? ==> v.value == SourceBlock(data, totalSize, blockSize, j))
  {
    PublishFromAt(data, totalSize, blockSize, CalcBlockCount(totalSize, blockSize) as nat, j);
    ReadableBlocksIff(totalSize, blockSize, |data|, j);
  }

  /** Once an item is nil, every later one is: a source that ends early
      yields the blocks it holds in full, then only nils. */
  lemma NilThenNils(data: Bytes, totalSize: int64, blockSize: int32, j: int, j': int)
    requires ValidSizes(totalSize, blockSize) && 0 <= j <= j' < CalcBlockCount(totalSize, blockSize)
    requires Publish(data, totalSize, blockSize)[j] == None
    ensures Publish(data, totalSize, blockSize)[j'] == None
  {
    var n := CalcBlockCount(totalSize, blockSize) as nat;
    PublishFromAt(data, totalSize, blockSize, n, j);
    PublishFromAt(data, totalSize, blockSize, n, j');
  }

  /** A source holding at least totalSize bytes yields every block. */
  lemma IntactSourcePublishesAll(data: Bytes, totalSize: int64, blockSize: int32, j: int)
    requires ValidSizes(totalSize, blockSize) && |data| >= totalSize
    requires 0 <= j < CalcBlockCount(totalSize, blockSize)
    ensures Publish(data, totalSize, blockSize)[j].Some?
  {
    PublishShape(data, totalSize, blockSize, j);
    BlockBounds(totalSize, blockSize, j);
  }

  /** An empty source sends nothing. */
  lemma EmptySourcePublishesNothing(data: Bytes, blockSize: int32)
    requires ValidSizes(0, blockSize)
    ensures Publish(data, 0, blockSize) == []
    ensures BlockStart(0, blockSize, ReadableBlocks(0, blockSize, |data|)) == 0
  {
    BlockCountIsCeil(0, blockSize);
  }

  /** The buffers of the blocks among vs, one after the other. */
  function SentData(vs: seq<Option<BlockFields>>): Bytes
  {
    if vs == [] then []
    else SentData(vs[..|vs| - 1]) + match vs[|vs| - 1] case None => [] case Some(b) => b.buffer
  }

  function BufferOf(v: Option<BlockFields>): Bytes
  {
    match v
    case None => []
    case Some(b) => b.buffer
  }

  lemma SentDataStep(data: Bytes, totalSize: int64, blockSize: int32, n: nat)
    requires ValidSizes(totalSize, blockSize) && 0 < n <= CalcBlockCount(totalSize, blockSize)
    ensures SentData(PublishFrom(data, totalSize, blockSize, n))
      == SentData(PublishFrom(data, totalSize, blockSize, n - 1)) + BufferOf(Published(data, totalSize, blockSize, n - 1))
  {
    var vs := PublishFrom(data, totalSize, blockSize, n);
    assert vs[..n - 1] == PublishFrom(data, totalSize, blockSize, n - 1);
  }

  /** Item n extends what was sent by one item, and what was hashed by its
      bytes. */
  lemma PublishStep(data: Bytes, totalSize: int64, blockSize: int32, n: nat, vs0: seq<Option<BlockFields>>, fed0: Bytes)
    requires ValidSizes(totalSize, blockSize) && n < CalcBlockCount(totalSize, blockSize)
    ensures var v := Published(data, totalSize, blockSize, n);
      && vs0 + PublishFrom(data, totalSize, blockSize, n + 1) == vs0 + PublishFrom(data, totalSize, blockSize, n) + [v]
      && fed0 + SentData(PublishFrom(data, totalSize, blockSize, n + 1))
         == fed0 + SentData(PublishFrom(data, totalSize, blockSize, n)) + BufferOf(v)
  {
    var sent, v := PublishFrom(data, totalSize, blockSize, n), Published(data, totalSize, blockSize, n);
    SentDataStep(data, totalSize, blockSize, n + 1);
    Regroup(vs0, sent, [v]);
    Regroup(fed0, SentData(sent), BufferOf(v));
  }

  /** A block the source holds in full extends the sent prefix by its bytes. */
  lemma SentDataGrows(data: Bytes, totalSize: int64, blockSize: int32, n: nat)
    requires ValidSizes(totalSize, blockSize) && 0 < n <= CalcBlockCount(totalSize, blockSize)
    requires BlockStart(totalSize, blockSize, n) <= |data| && BlockStart(totalSize, blockSize, n - 1) <= |data|
    requires SentData(PublishFrom(data, totalSize, blockSize, n - 1)) == data[..BlockStart(totalSize, blockSize, n - 1)]
    ensures SentData(PublishFrom(data, totalSize, blockSize, n)) == data[..BlockStart(totalSize, blockSize, n)]
  {
    SentDataStep(data, totalSize, blockSize, n);
    ReadableBlocksIff(totalSize, blockSize, |data|, n - 1);
    var b := SourceBlock(data, totalSize, blockSize, n - 1);
    assert BufferOf(Published(data, totalSize, blockSize, n - 1)) == b.buffer;
    var lo, hi := BlockStart(totalSize, blockSize, n - 1), BlockStart(totalSize, blockSize, n);
    assert data[..lo] + data[lo..hi] == data[..hi];
  }

  /** A block the source does not hold in full adds nothing. */
  lemma SentDataStays(data: Bytes, totalSize: int64, blockSize: int32, n: nat)
    requires ValidSizes(totalSize, blockSize) && 0 < n <= CalcBlockCount(totalSize, blockSize)
    requires n - 1 >= ReadableBlocks(totalSize, blockSize, |data|)
    ensures SentData(PublishFrom(data, totalSize, blockSize, n)) == SentData(PublishFrom(data, totalSize, blockSize, n - 1))
  {
    SentDataStep(data, totalSize, blockSize, n);
    ReadableBlocksIff(totalSize, blockSize, |data|, n - 1);
  }

  /** The hash is fed the bytes of every block sent, in order, and nothing
      else: those are the first bytes of the source, up to the end of the
      last block it holds in full. */
  lemma {:induction false} SentDataIsPrefix(data: Bytes, totalSize: int64, blockSize: int32, n: nat)
    requires ValidSizes(totalSize, blockSize) && n <= CalcBlockCount(totalSize, blockSize)
    ensures var k := ReadableBlocks(totalSize, blockSize, |data|);
      0 <= k && BlockStart(totalSize, blockSize, if n < k then n else k) <= |data|
      && SentData(PublishFrom(data, totalSize, blockSize, n))
         == data[..BlockStart(totalSize, blockSize, if n < k then n else k)]
    decreases n
  {
    var k := ReadableBlocks(totalSize, blockSize, |data|);
    ReadablePrefixAvailable(totalSize, blockSize, |data|);
    if n == 0 {
      BlockCountIsCeil(totalSize, blockSize);
    } else {
      SentDataIsPrefix(data, totalSize, blockSize, n - 1);
      if n - 1 < k {
        ReadableBlocksIff(totalSize, blockSize, |data|, n - 1);
        SentDataGrows(data, totalSize, blockSize, n);
      } else {
        SentDataStays(data, totalSize, blockSize, n);
      }
    }
  }

  /** For a source holding at least totalSize bytes, the hash is fed
      exactly the file's totalSize bytes. */
  lemma IntactSourceHashesFile(data: Bytes, totalSize: int64, blockSize: int32)
    requires ValidSizes(totalSize, blockSize) && |data| >= totalSize
    ensures BlockStart(totalSize, blockSize, ReadableBlocks(totalSize, blockSize, |data|)) == totalSize
    ensures SentData(Publish(data, totalSize, blockSize)) == data[..totalSize]
  {
    BlockCountIsCeil(totalSize, blockSize);
    SentDataIsPrefix(data, totalSize, blockSize, CalcBlockCount(totalSize, blockSize) as nat);
  }

  // ------------------------------------------------------ what a tunnel takes

  /** The blocks a receiver loop takes from item `from` on: up to the first
      nil, or to the end of a closed channel. */
  function Taken(vs: seq<Option<BlockFields>>, from: nat): (taken: seq<BlockFields>)
    requires from <= |vs|
    decreases |vs| - from
  {
    if from == |vs| || vs[from].None? then [] else [vs[from].value] + Taken(vs, from + 1)
  }

  /** How many items a receiver loop that starts at item `from` consumes:
      the blocks it takes and the nil that stops it, if there is one. */
  function Consumed(vs: seq<Option<BlockFields>>, from: nat): (n: nat)
    requires from <= |vs|
    ensures from <= n <= |vs|
    decreases |vs| - from
  {
    if from == |vs| then from else if vs[from].None? then from + 1 else Consumed(vs, from + 1)
  }

  /** A receiver loop that finds a block at item `at` takes it and goes on
      from the next item. */
  lemma TakeStep(vs: seq<Option<BlockFields>>, at: nat, b: BlockFields)
    requires at < |vs| && vs[at] == Some(b)
    ensures Taken(vs, at) == [b] + Taken(vs, at + 1) && Consumed(vs, at) == Consumed(vs, at + 1)
  {
  }

  /** The same step, seen from where the receiver loop started. */
  lemma TakeNext(vs: seq<Option<BlockFields>>, t0: nat, at: nat, sent: seq<BlockFields>, b: BlockFields)
    requires t0 <= at < |vs| && vs[at] == Some(b)
    requires Taken(vs, t0) == sent + Taken(vs, at) && Consumed(vs, t0) == Consumed(vs, at)
    ensures Taken(vs, t0) == (sent + [b]) + Taken(vs, at + 1) && Consumed(vs, t0) == Consumed(vs, at + 1)
  {
    TakeStep(vs, at, b);
    Regroup(sent, [b], Taken(vs, at + 1));
  }

  /** A receiver loop that finds nil at item `at`, or no item, stops there. */
  lemma TakeEnd(vs: seq<Option<BlockFields>>, at: nat)
    requires at == |vs| || (at < |vs| && vs[at].None?)
    ensures Taken(vs, at) == []
    ensures Consumed(vs, at) == if at == |vs| then at else at + 1
  {
  }

  /** The t-th block a receiver loop takes from item `from` on is item
      from + t, and every item before it is a block. */
  lemma {:induction false} TakenAt(vs: seq<Option<BlockFields>>, from: nat, t: nat)
    requires from <= |vs| && t < |Taken(vs, from)|
    ensures from + t < |vs| && vs[from + t].Some? && Taken(vs, from)[t] == vs[from + t].value
    decreases t
  {
    if t > 0 {
      TakenAt(vs, from + 1, t - 1);
    }
  }

  /** A tunnel starting at item `from` of what ReadBlocks sent takes
      consecutive blocks, starting with block `from`. */
  lemma TakenInOrder(data: Bytes, totalSize: int64, blockSize: int32, from: nat)
    requires ValidSizes(totalSize, blockSize) && from <= CalcBlockCount(totalSize, blockSize)
    ensures var taken := Taken(Publish(data, totalSize, blockSize), from);
      forall t | 0 <= t < |taken| ::
        from + t < CalcBlockCount(totalSize, blockSize)
        && BlockStart(totalSize, blockSize, from + t + 1) <= |data|
        && taken[t] == SourceBlock(data, totalSize, blockSize, from + t)
  {
    var vs := Publish(data, totalSize, blockSize);
    var taken := Taken(vs, from);
    forall t | 0 <= t < |taken|
      ensures from + t < CalcBlockCount(totalSize, blockSize)
      ensures BlockStart(totalSize, blockSize, from + t + 1) <= |data|
      ensures taken[t] == SourceBlock(data, totalSize, blockSize, from + t)
    {
      TakenAt(vs, from, t);
      assert |vs| == CalcBlockCount(totalSize, blockSize) && vs[from + t].Some?;
      PublishShape(data, totalSize, blockSize, from + t);
    }
  }

  /** A tunnel that is the only one takes every block the producer sent. */
  lemma {:induction false} TakenAll(vs: seq<Option<BlockFields>>, from: nat)
    requires from <= |vs| && forall j | from <= j < |vs| :: vs[j].Some?
    ensures |Taken(vs, from)| == |vs| - from && Consumed(vs, from) == |vs|
    ensures forall t | 0 <= t < |vs| - from :: Taken(vs, from)[t] == vs[from + t].value
    decreases |vs| - from
  {
    if from < |vs| {
      TakenAll(vs, from + 1);
      var taken := Taken(vs, from);
      forall t | 0 <= t < |vs| - from
        ensures taken[t] == vs[from + t].value
      {
        if t > 0 {
          assert taken[t] == Taken(vs, from + 1)[t - 1];
        }
      }
    }
  }

  /** `total += int64(block.size)` over the blocks bs, wrapping in int64.
      While the running total stays in range, it is the plain sum of the
      block sizes. */
  function Accumulate(start: int64, bs: seq<BlockFields>): (total: int64)
    ensures 0 <= start && (forall t | 0 <= t < |bs| :: 0 <= bs[t].size) && start + SumSizes(bs) < TwoTo63
      ==> total == start + SumSizes(bs)
    decreases |bs|
  {
    if bs == [] then start
    else
      var init := bs[..|bs| - 1];
      var sum := ToInt64(Accumulate(start, init) + bs[|bs| - 1].size);
      assert forall t | 0 <= t < |init| :: init[t] == bs[t];
      if 0 <= start && forall t | 0 <= t < |bs| :: 0 <= bs[t].size then
        SumSizesNonNegative(init);
        sum
      else sum
  }

  lemma AccumulateSnoc(start: int64, total: int64, bs: seq<BlockFields>, b: BlockFields)
    requires total == Accumulate(start, bs)
    ensures Accumulate(start, bs + [b]) == ToInt64(total + b.size)
  {
    assert (bs + [b])[..|bs|] == bs;
  }

  function SumSizes(bs: seq<BlockFields>): int
  {
    if bs == [] then 0 else SumSizes(bs[..|bs| - 1]) + bs[|bs| - 1].size
  }

  lemma {:induction false} SumSizesNonNegative(bs: seq<BlockFields>)
    requires forall t | 0 <= t < |bs| :: 0 <= bs[t].size
    ensures 0 <= SumSizes(bs)
    decreases |bs|
  {
    if bs != [] {
      var init := bs[..|bs| - 1];
      assert forall t | 0 <= t < |init| :: init[t] == bs[t];
      SumSizesNonNegative(init);
    }
  }

  /** The packets a tunnel writes: the metadata, then each block it took, in
      the order it took them, then the EOF packet. */
  function TunnelPackets(meta: MetadataFields, sent: seq<BlockFields>, eof: EofFields): (ps: seq<Packet>)
    ensures |ps| == |sent| + 2
    ensures ps[0] == Metadata(meta) && ps[|ps| - 1] == Eof(eof)
    ensures forall t | 0 <= t < |sent| :: ps[t + 1] == Block(sent[t])
    ensures AllInBuffer(sent) ==> forall i | 0 <= i < |ps| :: Encodable(ps[i])
  {
    [Metadata(meta)] + BlockPackets(sent) + [Eof(eof)]
  }

  function BlockPackets(sent: seq<BlockFields>): (ps: seq<Packet>)
    ensures |ps| == |sent| && forall t | 0 <= t < |sent| :: ps[t] == Block(sent[t])
  {
    seq(|sent|, t requires 0 <= t < |sent| => Block(sent[t]))
  }

  /** The items of a channel whose blocks can all be written. */
  predicate Sendable(vs: seq<Option<BlockFields>>)
  {
    forall j | 0 <= j < |vs| :: vs[j].Some? ==> DataInBuffer(vs[j].value)
  }

  lemma {:induction false} PublishSendable(data: Bytes, totalSize: int64, blockSize: int32, n: nat)
    requires ValidSizes(totalSize, blockSize) && n <= CalcBlockCount(totalSize, blockSize)
    ensures Sendable(PublishFrom(data, totalSize, blockSize, n))
    decreases n
  {
    if n > 0 {
      PublishSendable(data, totalSize, blockSize, n - 1);
    }
  }

  /** The packets of a tunnel, as the three writes it makes: the metadata
      packet, the blocks one after the other, the EOF packet. */
  lemma TunnelBytes(meta: MetadataFields, sent: seq<BlockFields>, eof: EofFields)
    requires AllInBuffer(sent)
    ensures EncodePackets(TunnelPackets(meta, sent, eof))
      == EncodePacket(Metadata(meta)) + EncodePackets(BlockPackets(sent)) + EncodePacket(Eof(eof))
  {
    var m, bs, e := [Metadata(meta)], BlockPackets(sent), [Eof(eof)];
    EncodePacketsAppend(m, bs);
    EncodePacketsAppend(m + bs, e);
    assert m[1..] == [] && e[1..] == [];
  }

  /** The metadata packet, the blocks, then the EOF packet, written one
      after the other. */
  lemma TunnelWritten(w0: Bytes, w1: Bytes, w2: Bytes, w3: Bytes, meta: MetadataFields, sent: seq<BlockFields>, eof: EofFields)
    requires AllInBuffer(sent)
    requires w1 == w0 + EncodePacket(Metadata(meta))
    requires w2 == w1 + EncodePackets(BlockPackets(sent))
    requires w3 == w2 + EncodePacket(Eof(eof))
    ensures w3 == w0 + EncodePackets(TunnelPackets(meta, sent, eof))
  {
    TunnelBytes(meta, sent, eof);
    AppendThree(w0, EncodePacket(Metadata(meta)), EncodePackets(BlockPackets(sent)), EncodePacket(Eof(eof)));
  }

  /** A connection that holds the blocks sent so far and then one more
      block packet holds the blocks including that one. */
  lemma WrittenSnoc(w0: Bytes, w: Bytes, sent: seq<BlockFields>, b: BlockFields)
    requires AllInBuffer(sent) && DataInBuffer(b)
    requires w == w0 + EncodePackets(BlockPackets(sent)) + EncodePacket(Block(b))
    ensures AllInBuffer(sent + [b]) && w == w0 + EncodePackets(BlockPackets(sent + [b]))
  {
    BlockPacketsSnoc(sent, b);
    Regroup(w0, EncodePackets(BlockPackets(sent)), EncodePacket(Block(b)));
  }

  /** One more block written after the others. */
  lemma BlockPacketsSnoc(sent: seq<BlockFields>, b: BlockFields)
    requires AllInBuffer(sent) && DataInBuffer(b)
    ensures AllInBuffer(sent + [b])
    ensures EncodePackets(BlockPackets(sent + [b])) == EncodePackets(BlockPackets(sent)) + EncodePacket(Block(b))
  {
    var one := [Block(b)];
    assert BlockPackets(sent + [b]) == BlockPackets(sent) + one;
    EncodePacketsAppend(BlockPackets(sent), one);
    assert one[1..] == [];
  }

  // --------------------------------------------------- reading the source

  /** Where the source file's read position is when ReadBlock(i) starts: the
      start of block i while every earlier block was read in full, the end of
      the file once a read came up short. */
  function Cursor(data: Bytes, totalSize: int64, blockSize: int32, i: int): int
    requires ValidSizes(totalSize, blockSize) && 0 <= i <= CalcBlockCount(totalSize, blockSize)
  {
    if i <= ReadableBlocks(totalSize, blockSize, |data|) then BlockStart(totalSize, blockSize, i) else |data|
  }

  /** Before ReadBlock(i) the cursor is within the file. */
  lemma CursorInFile(data: Bytes, totalSize: int64, blockSize: int32, i: int)
    requires ValidSizes(totalSize, blockSize) && 0 <= i <= CalcBlockCount(totalSize, blockSize)
    ensures 0 <= Cursor(data, totalSize, blockSize, i) <= |data|
  {
    var k := ReadableBlocks(totalSize, blockSize, |data|);
    ReadablePrefixAvailable(totalSize, blockSize, |data|);
    if i < k {
      ReadableBlocksIff(totalSize, blockSize, |data|, i);
      BlockBounds(totalSize, blockSize, i);
      BlockSizeInRange(totalSize, blockSize, i);
      MulMonotonic(blockSize, 0, i);
      assert BlockStart(totalSize, blockSize, i) < BlockStart(totalSize, blockSize, i + 1) <= |data|;
    } else if i == k && i < CalcBlockCount(totalSize, blockSize) {
      BlockBounds(totalSize, blockSize, i);
      MulMonotonic(blockSize, 0, i);
    }
  }

  /** ReadBlock(i), reading CalcBlockSize(i) bytes at the cursor, yields
      exactly the item ReadBlocks is specified to send for block i, and leaves
      the cursor where block i + 1 is read from. */
  lemma ReadBlockStep(data: Bytes, totalSize: int64, blockSize: int32, i: int)
    requires ValidSizes(totalSize, blockSize) && 0 <= i < CalcBlockCount(totalSize, blockSize)
    ensures 1 <= CalcBlockSize(totalSize, blockSize, i)
    ensures 0 <= Cursor(data, totalSize, blockSize, i) <= |data|
    ensures var size := CalcBlockSize(totalSize, blockSize, i);
      var c := ReadFullAt(data, Cursor(data, totalSize, blockSize, i), size as nat);
      && c.pos == Cursor(data, totalSize, blockSize, i + 1)
      && (c.ok <==> i < ReadableBlocks(totalSize, blockSize, |data|))
      && Published(data, totalSize, blockSize, i) == if c.ok then Some(BlockFields(i, size, c.bytes)) else None
  {
    BlockSizeInRange(totalSize, blockSize, i);
    BlockBounds(totalSize, blockSize, i);
    ReadableBlocksIff(totalSize, blockSize, |data|, i);
    ReadablePrefixAvailable(totalSize, blockSize, |data|);
    CursorInFile(data, totalSize, blockSize, i);
    CursorInFile(data, totalSize, blockSize, i + 1);
  }

  /** One turn of ReadBlocks on a file holding fileData, whose cursor was at
      p0 when ReadBlocks began: the read ReadBlock(i) makes, and what it adds
      to what was sent and to what was hashed. */
  lemma ProducerStep(fileData: Bytes, p0: nat, totalSize: int64, blockSize: int32, i: int, c: Chunk)
    requires ValidSizes(totalSize, blockSize) && 0 <= i < CalcBlockCount(totalSize, blockSize) && p0 <= |fileData|
    requires var cursor := Cursor(fileData[p0..], totalSize, blockSize, i);
      && 0 <= cursor <= |fileData[p0..]| && 0 <= CalcBlockSize(totalSize, blockSize, i)
      && c == ReadFullAt(fileData, p0 + cursor, CalcBlockSize(totalSize, blockSize, i) as nat)
    ensures var data := fileData[p0..];
      var size := CalcBlockSize(totalSize, blockSize, i);
      var before, after := PublishFrom(data, totalSize, blockSize, i), PublishFrom(data, totalSize, blockSize, i + 1);
      && c.pos == p0 + Cursor(data, totalSize, blockSize, i + 1)
      && (c.ok <==> i < ReadableBlocks(totalSize, blockSize, |data|))
      && Published(data, totalSize, blockSize, i) == (if c.ok then Some(BlockFields(i, size, c.bytes)) else None)
      && after == before + [Published(data, totalSize, blockSize, i)]
      && SentData(after) == SentData(before) + (if c.ok then c.bytes else [])
  {
    var data, size := fileData[p0..], CalcBlockSize(totalSize, blockSize, i);
    var d := ReadFullAt(data, Cursor(data, totalSize, blockSize, i), size as nat);
    ReadBlockStep(data, totalSize, blockSize, i);
    ReadFullShift(fileData, p0, Cursor(data, totalSize, blockSize, i), size as nat);
    assert c == Chunk(d.bytes, p0 + d.pos, d.ok);
    var v := Published(data, totalSize, blockSize, i);
    assert v == if d.ok then Some(BlockFields(i, size, d.bytes)) else None;
    assert PublishFrom(data, totalSize, blockSize, i + 1) == PublishFrom(data, totalSize, blockSize, i) + [v];
    SentDataStep(data, totalSize, blockSize, i + 1);
    assert BufferOf(v) == if d.ok then d.bytes else [];
  }

  // ------------------------------------------------------------ the client

  /** The client's parameters that the modelled operations use: the source
      path and the block size (a Go `int`). */
  datatype ClientParams = ClientParams(path: Bytes, blockSize: int)

  class Client {
    const params: ClientParams
    const hasher: Hasher
    const blockChannel: Channel
    var freeBlocks: seq<BlockInfo>
    var file: Reader?
    var filename: Bytes
    var fileMetadata: FileMetadata?
    var fileEOF: FileEOF?
    var currentBlockIndex: int64
    var totalSize: int64
    var digest: Bytes
    var digeststr: string

    /** NewClient, with the parameters Client.Run stores before anything
        else and the MD5 function of the new hasher. */
    constructor (params: ClientParams, md5: Bytes -> Bytes)
      ensures this.params == params && freeBlocks == []
      ensures file == null && fileMetadata == null && fileEOF == null
      ensures fresh(hasher) && hasher.md5 == md5 && hasher.fed == []
      ensures fresh(blockChannel) && blockChannel.Valid() && blockChannel.items == []
      ensures blockChannel.taken == 0 && !blockChannel.closed
      ensures currentBlockIndex == 0 && totalSize == 0 && digest == [] && digeststr == ""
    {
      this.params := params;
      hasher := new Hasher(md5);
      blockChannel := new Channel();
      freeBlocks, file, filename, fileMetadata, fileEOF := [], null, [], null, null;
      currentBlockIndex, totalSize, digest, digeststr := 0, 0, [], "";
    }

    /** GetBlock: the first free block, or a new one whose buffer holds
        params.blockSize zero bytes (`make` panics on a negative length). */
    method GetBlock() returns (block: BlockInfo)
      requires freeBlocks == [] ==> params.blockSize >= 0
      modifies this`freeBlocks
      ensures old(freeBlocks) != [] ==> block == old(freeBlocks)[0] && freeBlocks == old(freeBlocks)[1..]
      ensures old(freeBlocks) == [] ==>
        freeBlocks == [] && fresh(block) && block.Fields() == BlockFields(0, 0, Zeros(params.blockSize))
    {
      if |freeBlocks| > 0 {
        block := freeBlocks[0];
        freeBlocks := freeBlocks[1..];
        return;
      }
      block := new BlockInfo(Zeros(params.blockSize));
    }

    /** NewBlock: a block of `size` zero bytes announcing that size. */
    method NewBlock(size: int32) returns (block: BlockInfo)
      requires size >= 0
      ensures fresh(block) && block.Fields() == BlockFields(0, size, Zeros(size))
    {
      block := new BlockInfo(Zeros(size));
      block.size := size;
    }

    /** ReadBlock: reads CalcBlockSize(blockIndex) bytes from the file's
        cursor. A short read yields nil and changes nothing but the cursor;
        a full one yields the block, records its index and feeds its bytes
        to the hash. CalcBlockSize divides by the block size, and NewBlock
        panics on the -1 it returns for an index outside the file. */
    method ReadBlock(blockIndex: int64) returns (block: BlockInfo?)
      requires fileMetadata != null && file != null && file.Valid()
      requires fileMetadata.blockSize != 0
      requires CalcBlockSize(fileMetadata.totalSize, fileMetadata.blockSize, blockIndex) >= 0
      modifies file, hasher, this`currentBlockIndex
      ensures file.Valid()
      ensures var size := CalcBlockSize(fileMetadata.totalSize, fileMetadata.blockSize, blockIndex);
        var c := ReadFullAt(file.data, old(file.pos), size as nat);
        && file.pos == c.pos
        && (c.ok ==> block != null && fresh(block) && block.Fields() == BlockFields(blockIndex, size, c.bytes)
                     && currentBlockIndex == blockIndex && hasher.fed == old(hasher.fed) + c.bytes)
        && (!c.ok ==> block == null && currentBlockIndex == old(currentBlockIndex) && hasher.fed == old(hasher.fed))
    {
      var size := CalcBlockSize(fileMetadata.totalSize, fileMetadata.blockSize, blockIndex);
      block := NewBlock(size);
      var got, ok := file.ReadFull(size as nat);
      block.buffer := got + block.buffer[|got|..];
      if !ok || |got| != size as int {
        return null;
      }
      block.size := ToInt32(|got|);
      block.blockIndex := blockIndex;
      currentBlockIndex := blockIndex;
      hasher.Write(block.buffer[0..|got|]);
    }

    /** ReadBlocks: one ReadBlock per block of the metadata, each result sent
        on the channel, then the digest of everything hashed is stored (also
        in the EOF packet) and the channel closed. Stated for the bytes the
        file holds from its cursor on, which may be fewer than the metadata
        announces. */
    method ReadBlocks()
      requires fileMetadata != null && fileEOF != null && file != null && file.Valid()
      requires ValidSizes(fileMetadata.totalSize, fileMetadata.blockSize)
      requires blockChannel.Valid() && !blockChannel.closed
      modifies file, hasher, blockChannel, fileEOF, this`digest, this`digeststr, this`currentBlockIndex
      ensures file.Valid() && blockChannel.Valid()
      ensures var data := file.data[old(file.pos)..];
        var ts, bs := fileMetadata.totalSize, fileMetadata.blockSize;
        var k := ReadableBlocks(ts, bs, |data|);
        && Values(blockChannel.items) == old(Values(blockChannel.items)) + Publish(data, ts, bs)
        && blockChannel.taken == old(blockChannel.taken) && blockChannel.closed
        && hasher.fed == old(hasher.fed) + SentData(Publish(data, ts, bs))
        && file.pos == old(file.pos) + Cursor(data, ts, bs, CalcBlockCount(ts, bs))
        && currentBlockIndex == (if k == 0 then old(currentBlockIndex) else k - 1)
      ensures digest == hasher.md5(hasher.fed) && digeststr == HexEncode(digest) && fileEOF.digest == digest
    {
      ghost var vs0 := Values(blockChannel.items);
      SendBlocks(vs0);
      ghost var vs := Values(blockChannel.items);
      digest := hasher.Sum();
      digeststr := HexEncode(digest);
      fileEOF.digest := digest;
      blockChannel.Close();
      assert Values(blockChannel.items) == vs;
    }

    /** The index of the last block ReadBlocks recorded after n turns, when
        the first k blocks can be read in full and `before` was recorded
        when it started. */
    static function LastRead(before: int64, k: int, n: nat): int
    {
      if n <= k then (if n == 0 then before else n - 1) else (if k <= 0 then before else k - 1)
    }

    /** The state of ReadBlocks after n turns, where bytes data are what the
        file held from p0 on, and vs0, fed0 and c0 are the channel's items,
        the hashed bytes and the recorded block index when it started. */
    ghost predicate Produced(p0: nat, data: Bytes, vs0: seq<Option<BlockFields>>, fed0: Bytes, c0: int64, n: nat)
      reads this, fileMetadata, file, hasher, blockChannel, blockChannel.items
    {
      && fileMetadata != null && file != null
      && ValidSizes(fileMetadata.totalSize, fileMetadata.blockSize)
      && n <= CalcBlockCount(fileMetadata.totalSize, fileMetadata.blockSize)
      && p0 <= |file.data| && data == file.data[p0..]
      && var ts, bs := fileMetadata.totalSize, fileMetadata.blockSize;
      && file.pos == p0 + Cursor(data, ts, bs, n)
      && hasher.fed == fed0 + SentData(PublishFrom(data, ts, bs, n))
      && Values(blockChannel.items) == vs0 + PublishFrom(data, ts, bs, n)
      && currentBlockIndex == LastRead(c0, ReadableBlocks(ts, bs, |data|), n)
    }

    /** The loop of ReadBlocks: ReadBlock for each block index of the
        metadata in turn, each result sent on the channel. */
    method SendBlocks(ghost vs0: seq<Option<BlockFields>>)
      requires fileMetadata != null && file != null && file.Valid()
      requires ValidSizes(fileMetadata.totalSize, fileMetadata.blockSize)
      requires blockChannel.Valid() && !blockChannel.closed && vs0 == Values(blockChannel.items)
      modifies file, hasher, blockChannel, this`currentBlockIndex
      ensures file.Valid() && blockChannel.Valid() && !blockChannel.closed
      ensures blockChannel.taken == old(blockChannel.taken)
      ensures var data := file.data[old(file.pos)..];
        var ts, bs := fileMetadata.totalSize, fileMetadata.blockSize;
        var k := ReadableBlocks(ts, bs, |data|);
        && Values(blockChannel.items) == vs0 + Publish(data, ts, bs)
        && hasher.fed == old(hasher.fed) + SentData(Publish(data, ts, bs))
        && file.pos == old(file.pos) + Cursor(data, ts, bs, CalcBlockCount(ts, bs))
        && currentBlockIndex == (if k == 0 then old(currentBlockIndex) else k - 1)
    {
      ghost var p0, fed0, c0 := file.pos, hasher.fed, currentBlockIndex;
      ghost var data := file.data[p0..];
      var ts, bs := fileMetadata.totalSize, fileMetadata.blockSize;
      var blockIndex: int64 := 0;
      var blockCount: int64 := CalcBlockCount(ts, bs);
      Started(p0, data, vs0, fed0, c0);
      while blockIndex < blockCount
        invariant 0 <= blockIndex <= blockCount
        invariant file.Valid() && blockChannel.Valid() && !blockChannel.closed
        invariant blockChannel.taken == old(blockChannel.taken)
        invariant Produced(p0, data, vs0, fed0, c0, blockIndex as nat)
      {
        Advance(blockIndex, p0, data, vs0, fed0, c0);
        blockIndex := blockIndex + 1;
      }
      Finished(p0, data, vs0, fed0, c0);
    }

    /** Before the first turn of ReadBlocks nothing has been produced. */
    lemma Started(p0: nat, data: Bytes, vs0: seq<Option<BlockFields>>, fed0: Bytes, c0: int64)
      requires fileMetadata != null && file != null && ValidSizes(fileMetadata.totalSize, fileMetadata.blockSize)
      requires p0 == file.pos <= |file.data| && data == file.data[p0..]
      requires fed0 == hasher.fed && vs0 == Values(blockChannel.items) && c0 == currentBlockIndex
      ensures Produced(p0, data, vs0, fed0, c0, 0)
    {
      BlockCountIsCeil(fileMetadata.totalSize, fileMetadata.blockSize);
      ReadablePrefixAvailable(fileMetadata.totalSize, fileMetadata.blockSize, |data|);
    }

    /** After the last turn of ReadBlocks every block has been produced. */
    lemma Finished(p0: nat, data: Bytes, vs0: seq<Option<BlockFields>>, fed0: Bytes, c0: int64)
      requires fileMetadata != null && ValidSizes(fileMetadata.totalSize, fileMetadata.blockSize)
      requires Produced(p0, data, vs0, fed0, c0, CalcBlockCount(fileMetadata.totalSize, fileMetadata.blockSize) as nat)
      ensures var ts, bs := fileMetadata.totalSize, fileMetadata.blockSize;
        var k := ReadableBlocks(ts, bs, |data|);
        && Values(blockChannel.items) == vs0 + Publish(data, ts, bs)
        && hasher.fed == fed0 + SentData(Publish(data, ts, bs))
        && file.pos == p0 + Cursor(data, ts, bs, CalcBlockCount(ts, bs))
        && currentBlockIndex == (if k == 0 then c0 else k - 1)
    {
      var ts, bs := fileMetadata.totalSize, fileMetadata.blockSize;
      ReadablePrefixAvailable(ts, bs, |data|);
      assert Publish(data, ts, bs) == PublishFrom(data, ts, bs, CalcBlockCount(ts, bs) as nat);
    }

    /** One turn of ReadBlocks takes the state after i turns to the state
        after i + 1. */
    method Advance(i: int64, ghost p0: nat, ghost data: Bytes, ghost vs0: seq<Option<BlockFields>>, ghost fed0: Bytes, ghost c0: int64)
      requires 0 <= i && file != null && file.Valid() && blockChannel.Valid() && !blockChannel.closed
      requires Produced(p0, data, vs0, fed0, c0, i as nat)
      requires i < CalcBlockCount(fileMetadata.totalSize, fileMetadata.blockSize)
      modifies file, hasher, blockChannel, this`currentBlockIndex
      ensures file.Valid() && blockChannel.Valid() && !blockChannel.closed
      ensures blockChannel.taken == old(blockChannel.taken)
      ensures Produced(p0, data, vs0, fed0, c0, i as nat + 1)
    {
      var ts, bs := fileMetadata.totalSize, fileMetadata.blockSize;
      ghost var n: nat := i as nat;
      ReadablePrefixAvailable(ts, bs, |data|);
      Turn(i, p0, data, Values(blockChannel.items));
      PublishStep(data, ts, bs, n, vs0, fed0);
    }

    /** One turn of ReadBlocks, where bytes data are what the file held
        from p0 on: the item sent for block i is Published(i). */
    method Turn(i: int64, ghost p0: nat, ghost data: Bytes, ghost vs: seq<Option<BlockFields>>)
      requires fileMetadata != null && file != null && file.Valid()
      requires ValidSizes(fileMetadata.totalSize, fileMetadata.blockSize)
      requires 0 <= i < CalcBlockCount(fileMetadata.totalSize, fileMetadata.blockSize)
      requires p0 <= |file.data| && data == file.data[p0..]
      requires file.pos == p0 + Cursor(data, fileMetadata.totalSize, fileMetadata.blockSize, i)
      requires blockChannel.Valid() && !blockChannel.closed && vs == Values(blockChannel.items)
      modifies file, hasher, blockChannel, this`currentBlockIndex
      ensures file.Valid() && blockChannel.Valid() && !blockChannel.closed
      ensures blockChannel.taken == old(blockChannel.taken)
      ensures var ts, bs := fileMetadata.totalSize, fileMetadata.blockSize;
        var v := Published(data, ts, bs, i as int);
        && Values(blockChannel.items) == vs + [v]
        && hasher.fed == old(hasher.fed) + BufferOf(v)
        && file.pos == p0 + Cursor(data, ts, bs, i as int + 1)
        && currentBlockIndex == if i < ReadableBlocks(ts, bs, |data|) then i else old(currentBlockIndex)
    {
      var ts, bs := fileMetadata.totalSize, fileMetadata.blockSize;
      CursorInFile(data, ts, bs, i);
      BlockSizeInRange(ts, bs, i);
      ghost var c := ReadFullAt(file.data, file.pos, CalcBlockSize(ts, bs, i) as nat);
      ProducerStep(file.data, p0, ts, bs, i, c);
      ghost var v := Published(data, ts, bs, i as int);
      assert v == if c.ok then Some(BlockFields(i, CalcBlockSize(ts, bs, i), c.bytes)) else None;
      assert BufferOf(v) == if c.ok then c.bytes else [];
      SendOne(i, c, vs);
    }

    /** One turn of ReadBlocks: ReadBlock(i), whose result goes on the
        channel; `c` is the read ReadBlock makes. */
    method SendOne(i: int64, ghost c: Chunk, ghost vs: seq<Option<BlockFields>>)
      requires fileMetadata != null && file != null && file.Valid()
      requires fileMetadata.blockSize != 0
      requires CalcBlockSize(fileMetadata.totalSize, fileMetadata.blockSize, i) >= 0
      requires c == ReadFullAt(file.data, file.pos, CalcBlockSize(fileMetadata.totalSize, fileMetadata.blockSize, i) as nat)
      requires blockChannel.Valid() && !blockChannel.closed && vs == Values(blockChannel.items)
      modifies file, hasher, blockChannel, this`currentBlockIndex
      ensures file.Valid() && blockChannel.Valid() && !blockChannel.closed
      ensures blockChannel.taken == old(blockChannel.taken)
      ensures Values(blockChannel.items)
        == vs + [if c.ok then Some(BlockFields(i, CalcBlockSize(fileMetadata.totalSize, fileMetadata.blockSize, i), c.bytes)) else None]
      ensures hasher.fed == old(hasher.fed) + (if c.ok then c.bytes else [])
      ensures file.pos == c.pos && currentBlockIndex == if c.ok then i else old(currentBlockIndex)
    {
      ghost var before := blockChannel.items;
      var block := ReadBlock(i);
      ghost var v := if c.ok then Some(BlockFields(i, CalcBlockSize(fileMetadata.totalSize, fileMetadata.blockSize, i), c.bytes)) else None;
      assert Item(block) == v;
      ValuesSnoc(before, block);
      assert Values(before) == vs;
      blockChannel.Send(block);
      assert Values(blockChannel.items) == Values(before + [block]);
    }

    /** OpenFile: the file name is the last element of the path; opening
        either fails, or yields the file (its size is what Stat reports) and
        fresh metadata and EOF packets. `source` is the outcome of os.Open:
        the file's bytes, or None. */
    method OpenFile(source: Option<Bytes>) returns (ok: bool)
      requires source.Some? ==> |source.value| < TwoTo63
      modifies this`filename, this`file, this`fileMetadata, this`fileEOF
      ensures filename == Base(params.path)
      ensures ok <==> source.Some?
      ensures !ok ==> file == null && fileMetadata == old(fileMetadata) && fileEOF == old(fileEOF)
      ensures ok ==> file != null && fresh(file) && file.Valid() && file.data == source.value && file.pos == 0
      ensures ok ==> fileMetadata != null && fresh(fileMetadata)
      ensures ok ==> fileMetadata.Fields() == MetadataFields(Base(params.path), |source.value|, ToInt32(params.blockSize))
      ensures ok ==> fileEOF != null && fresh(fileEOF) && fileEOF.digest == []
    {
      filename := Base(params.path);
      if source.None? {
        file := null;
        return false;
      }
      file := new Reader(source.value);
      var meta := new FileMetadata();
      meta.name := filename;
      fileMetadata := meta;
      fileEOF := new FileEOF();
      meta.totalSize := |source.value|;
      meta.blockSize := ToInt32(params.blockSize);
      ok := true;
    }
  }

  /** One connection of the client. */
  class ClientTunnel {
    const client: Client
    const index: int
    var conn: Writer?
    var totalSize: int64

    /** NewClientTunnel. */
    constructor (client: Client, index: int)
      ensures this.client == client && this.index == index && conn == null && totalSize == 0
    {
      this.client, this.index := client, index;
      conn, totalSize := null, 0;
    }

    /** ClientTunnel.Run, once the producer has closed the channel. `dialed`
        is the outcome of net.Dial: the connection, or null when it fails,
        in which case the tunnel does nothing. Otherwise it writes the
        metadata packet, each block it takes (up to the first nil, or until
        the channel is drained), then the EOF packet, adding each block's
        size to its own and the client's running totals. The error test in
        the loop reads the dial error, which is nil there, so it never
        stops the loop. */
    method Run(dialed: Writer?)
      requires client.fileMetadata != null && client.fileEOF != null
      requires client.blockChannel.Valid() && client.blockChannel.closed
      requires Sendable(Values(client.blockChannel.items))
      modifies this, dialed, client.blockChannel, client`totalSize
      ensures dialed == null ==> conn == old(conn) && totalSize == old(totalSize)
      ensures dialed == null ==> client.blockChannel.taken == old(client.blockChannel.taken)
      ensures dialed == null ==> client.totalSize == old(client.totalSize)
      ensures client.blockChannel.Valid() && client.blockChannel.closed && client.blockChannel.items == old(client.blockChannel.items)
      ensures dialed != null ==>
        var vs, t0 := old(Values(client.blockChannel.items)), old(client.blockChannel.taken);
        var sent := Taken(vs, t0);
        && conn == dialed
        && AllInBuffer(sent)
        && dialed.written == old(dialed.written)
             + EncodePackets(TunnelPackets(client.fileMetadata.Fields(), sent, client.fileEOF.Fields()))
        && client.blockChannel.taken == Consumed(vs, t0)
        && totalSize == Accumulate(0, sent)
        && client.totalSize == Accumulate(old(client.totalSize), sent)
    {
      if dialed == null {
        return;
      }
      ghost var vs := Values(client.blockChannel.items);
      conn := dialed;
      totalSize := 0;
      assert Values(client.blockChannel.items) == vs;
      Stream(dialed, vs);
    }

    /** Run over an open connection `w`: the metadata packet, the blocks
        taken from the channel, then the EOF packet. */
    method Stream(w: Writer, ghost vs: seq<Option<BlockFields>>)
      requires client.fileMetadata != null && client.fileEOF != null
      requires client.blockChannel.Valid() && client.blockChannel.closed
      requires vs == Values(client.blockChannel.items) && Sendable(vs)
      modifies w, client.blockChannel, this`totalSize, client`totalSize
      ensures client.blockChannel.Valid() && client.blockChannel.closed && client.blockChannel.items == old(client.blockChannel.items)
      ensures var t0 := old(client.blockChannel.taken);
        var sent := Taken(vs, t0);
        && AllInBuffer(sent)
        && w.written == old(w.written)
             + EncodePackets(TunnelPackets(client.fileMetadata.Fields(), sent, client.fileEOF.Fields()))
        && client.blockChannel.taken == Consumed(vs, t0)
        && totalSize == Accumulate(old(totalSize), sent)
        && client.totalSize == Accumulate(old(client.totalSize), sent)
    {
      ghost var meta, eof := client.fileMetadata.Fields(), client.fileEOF.Fields();
      WritePacket(MetadataRef(client.fileMetadata), w);
      ghost var afterMeta := w.written;
      assert Values(client.blockChannel.items) == vs;
      ghost var sent := Forward(w, vs);
      ghost var afterBlocks := w.written;
      WritePacket(EofRef(client.fileEOF), w);
      TunnelWritten(old(w.written), afterMeta, afterBlocks, w.written, meta, sent, eof);
      assert meta == client.fileMetadata.Fields() && eof == client.fileEOF.Fields();
    }

    /** The loop of Run: every block taken from the channel up to the first
        nil (or until it is drained) is written to `w` and added to both
        running totals. */
    method Forward(w: Writer, ghost vs: seq<Option<BlockFields>>) returns (ghost sent: seq<BlockFields>)
      requires client.blockChannel.Valid() && client.blockChannel.closed
      requires vs == Values(client.blockChannel.items) && Sendable(vs)
      modifies w, client.blockChannel, this`totalSize, client`totalSize
      ensures client.blockChannel.Valid() && client.blockChannel.closed && client.blockChannel.items == old(client.blockChannel.items)
      ensures sent == Taken(vs, old(client.blockChannel.taken))
      ensures client.blockChannel.taken == Consumed(vs, old(client.blockChannel.taken))
      ensures AllInBuffer(sent)
      ensures w.written == old(w.written) + EncodePackets(BlockPackets(sent))
      ensures totalSize == Accumulate(old(totalSize), sent)
      ensures client.totalSize == Accumulate(old(client.totalSize), sent)
    {
      forall j | 0 <= j < |vs|
        ensures vs[j] == Item(client.blockChannel.items[j])
      {
        ValuesAt(client.blockChannel.items, j);
      }
      ghost var t0 := client.blockChannel.taken;
      ghost var own0, shared0, w0 := totalSize, client.totalSize, w.written;
      var channel := client.blockChannel;
      sent := [];
      while true
        invariant channel.Valid() && channel.closed && channel.items == old(channel.items)
        invariant t0 <= channel.taken <= |vs|
        invariant Taken(vs, t0) == sent + Taken(vs, channel.taken)
        invariant Consumed(vs, t0) == Consumed(vs, channel.taken)
        invariant AllInBuffer(sent)
        invariant w.written == w0 + EncodePackets(BlockPackets(sent))
        invariant totalSize == Accumulate(own0, sent) && client.totalSize == Accumulate(shared0, sent)
        decreases |vs| - channel.taken
      {
        ghost var at := channel.taken;
        var block := channel.Receive();
        if block == null {
          TakeEnd(vs, at);
          assert sent + Taken(vs, at) == sent;
          return;
        }
        ghost var b := block.Fields();
        assert vs[at] == old(Item(block)) == Some(b);
        TakeNext(vs, t0, at, sent, b);
        ForwardBlock(block, w, sent, w0, own0, shared0);
        sent := sent + [b];
      }
    }

    /** One turn of Run's loop: the block goes out on `w` as a block
        packet, after what was sent before it, and its size is added to
        both running totals. */
    method ForwardBlock(block: BlockInfo, w: Writer, ghost sent: seq<BlockFields>, ghost w0: Bytes, ghost own0: int64, ghost shared0: int64)
      requires DataInBuffer(block.Fields()) && AllInBuffer(sent)
      requires w.written == w0 + EncodePackets(BlockPackets(sent))
      requires totalSize == Accumulate(own0, sent) && client.totalSize == Accumulate(shared0, sent)
      modifies w, this`totalSize, client`totalSize
      ensures AllInBuffer(sent + [block.Fields()])
      ensures w.written == w0 + EncodePackets(BlockPackets(sent + [block.Fields()]))
      ensures totalSize == Accumulate(own0, sent + [block.Fields()])
      ensures client.totalSize == Accumulate(shared0, sent + [block.Fields()])
    {
      WritePacket(BlockRef(block), w);
      WrittenSnoc(w0, w.written, sent, block.Fields());
      Count(block.size, sent, block.Fields(), own0, shared0);
    }

    /** `tunnel.totalSize += int64(block.size)` and the same on the client. */
    method Count(size: int32, ghost sent: seq<BlockFields>, ghost b: BlockFields, ghost own0: int64, ghost shared0: int64)
      requires size == b.size
      requires totalSize == Accumulate(own0, sent) && client.totalSize == Accumulate(shared0, sent)
      modifies this`totalSize, client`totalSize
      ensures totalSize == Accumulate(own0, sent + [b]) && client.totalSize == Accumulate(shared0, sent + [b])
    {
      ghost var own, shared := totalSize, client.totalSize;
      AccumulateSnoc(own0, own, sent, b);
      AccumulateSnoc(shared0, shared, sent, b);
      totalSize := ToInt64(totalSize + size);
      client.totalSize := ToInt64(client.totalSize + size);
    }
  }
}
