/** The wire format of the three packet types, as pure functions: what each
    `Write` method puts on the wire, and what each `Read` method takes from a
    stream and leaves in its receiver. Decoding takes the receiver's previous
    field values because the source's `Read` methods assign fields in place
    and leave a field untouched when reading it fails. */
module Codec {
  import opened Bytes
  import opened Stream

  /** The one-byte discriminator that precedes every packet. */
  const FileMetadataPacket: byte := 1
  const BlockPacket: byte := 2
  const FileEofPacket: byte := 3

  /** How a `Read` ends: success (Go's nil error), a stream that ended before
      the last read was filled, or a negative announced block length, for
      which Go's `make` panics. */
  datatype Status = Ok | ShortRead | NegativeLength

  datatype MetadataFields = MetadataFields(name: Bytes, totalSize: int64, blockSize: int32)
  datatype BlockFields = BlockFields(blockIndex: int64, size: int32, buffer: Bytes)
  datatype EofFields = EofFields(digest: Bytes)

  /** The receiver's fields after a `Read`, the stream cursor after it, and
      the error it returns. */
  datatype Decoded<T> = Decoded(fields: T, pos: nat, status: Status)

  datatype Packet =
    | Metadata(meta: MetadataFields)
    | Block(block: BlockFields)
    | Eof(eof: EofFields)

  function PacketType(p: Packet): byte
  {
    match p
    case Metadata(_) => FileMetadataPacket
    case Block(_) => BlockPacket
    case Eof(_) => FileEofPacket
  }

  // ---------------------------------------------------------------- encoding

  /** FileMetadata.Write: uint16 name length (the length's low 16 bits), the
      name, int64 total size, int32 block size, all big-endian. */
  function EncodeMetadata(m: MetadataFields): (bs: Bytes)
    ensures |bs| == 2 + |m.name| + 8 + 4
  {
    EncodeU16(|m.name|) + m.name + EncodeI64(m.totalSize) + EncodeI32(m.blockSize)
  }

  /** GetData slices `buffer[0:size]`; Go panics unless 0 <= size <= len(buffer). */
  predicate DataInBuffer(b: BlockFields)
  {
    0 <= b.size <= |b.buffer|
  }

  /** Blocks whose data can all be taken. */
  predicate AllInBuffer(bs: seq<BlockFields>)
  {
    forall t | 0 <= t < |bs| :: DataInBuffer(bs[t])
  }

  /** BlockInfo.GetData: the first `size` bytes of the buffer. */
  function GetData(b: BlockFields): (data: Bytes)
    requires DataInBuffer(b)
    ensures |data| == b.size && data <= b.buffer
  {
    b.buffer[..b.size]
  }

  /** BlockInfo.Write: int64 index, int32 size, then GetData(). */
  function EncodeBlock(b: BlockFields): (bs: Bytes)
    requires DataInBuffer(b)
    ensures |bs| == 8 + 4 + b.size
  {
    EncodeI64(b.blockIndex) + EncodeI32(b.size) + GetData(b)
  }

  /** FileEOF.Write: uint16 digest length, then the digest. */
  function EncodeEof(e: EofFields): (bs: Bytes)
    ensures |bs| == 2 + |e.digest|
  {
    EncodeU16(|e.digest|) + e.digest
  }

  predicate Encodable(p: Packet)
  {
    p.Block? ==> DataInBuffer(p.block)
  }

  function EncodeBody(p: Packet): Bytes
    requires Encodable(p)
  {
    match p
    case Metadata(m) => EncodeMetadata(m)
    case Block(b) => EncodeBlock(b)
    case Eof(e) => EncodeEof(e)
  }

  /** The number of bytes WritePacket emits for p. */
  function WireSize(p: Packet): nat
    requires Encodable(p)
  {
    1 + match p
        case Metadata(m) => 2 + |m.name| + 8 + 4
        case Block(b) => 8 + 4 + b.size
        case Eof(e) => 2 + |e.digest|
  }

  /** One write WritePacket makes: the type byte, a big-endian integer
      (binary.Write), or raw bytes (w.Write). */
  datatype Field =
    | TypeByte(t: byte)
    | U16(n: int)
    | I64(i64: int64)
    | I32(i32: int32)
    | Raw(raw: Bytes)

  function EncodeField(f: Field): Bytes
  {
    match f
    case TypeByte(t) => [t]
    case U16(n) => EncodeU16(n)
    case I64(x) => EncodeI64(x)
    case I32(x) => EncodeI32(x)
    case Raw(r) => r
  }

  function FieldSize(f: Field): nat
  {
    match f
    case TypeByte(_) => 1
    case U16(_) => 2
    case I64(_) => 8
    case I32(_) => 4
    case Raw(r) => |r|
  }

  function LayoutSize(fs: seq<Field>): nat
  {
    if fs == [] then 0 else FieldSize(fs[0]) + LayoutSize(fs[1..])
  }

  /** The writes one after the other. */
  function EncodeFields(fs: seq<Field>): (bs: Bytes)
    ensures |bs| == LayoutSize(fs)
  {
    if fs == [] then [] else EncodeField(fs[0]) + EncodeFields(fs[1..])
  }

  /** The writes WritePacket makes for p: its type byte, then those of the
      packet's own Write. */
  function Layout(p: Packet): seq<Field>
    requires Encodable(p)
  {
    match p
    case Metadata(m) => [TypeByte(PacketType(p)), U16(|m.name|), Raw(m.name), I64(m.totalSize), I32(m.blockSize)]
    case Block(b) => [TypeByte(PacketType(p)), I64(b.blockIndex), I32(b.size), Raw(GetData(b))]
    case Eof(e) => [TypeByte(PacketType(p)), U16(|e.digest|), Raw(e.digest)]
  }

  lemma LayoutHasWireSize(p: Packet)
    requires Encodable(p)
    ensures LayoutSize(Layout(p)) == WireSize(p)
  {
    var l := Layout(p);
    assert LayoutSize(l[|l| - 1..]) == FieldSize(l[|l| - 1]);
    if p.Eof? {
      assert LayoutSize(l[1..]) == FieldSize(l[1]) + LayoutSize(l[2..]);
    } else {
      assert LayoutSize(l[2..]) == FieldSize(l[2]) + LayoutSize(l[3..]);
    }
  }

  /** WritePacket: what its writes emit. */
  function EncodePacket(p: Packet): (bs: Bytes)
    requires Encodable(p)
    ensures |bs| == WireSize(p)
  {
    LayoutHasWireSize(p);
    EncodeFields(Layout(p))
  }

  lemma EncodeFieldsAt(fs: seq<Field>, k: nat)
    requires k < |fs|
    ensures EncodeFields(fs[k..]) == EncodeField(fs[k]) + EncodeFields(fs[k + 1..])
  {
    assert fs[k..][1..] == fs[k + 1..];
  }

  /** WritePacket emits the discriminator byte, then the packet's own
      encoding. */
  lemma PacketBytes(p: Packet)
    requires Encodable(p)
    ensures EncodePacket(p) == [PacketType(p)] + EncodeBody(p)
  {
    match p
    case Metadata(m) => MetadataPacketBytes(m);
    case Block(b) => BlockPacketBytes(b);
    case Eof(e) => EofPacketBytes(e);
  }

  lemma MetadataPacketBytes(m: MetadataFields)
    ensures EncodePacket(Metadata(m)) == [FileMetadataPacket] + EncodeMetadata(m)
  {
    FiveFields(TypeByte(FileMetadataPacket), U16(|m.name|), Raw(m.name), I64(m.totalSize), I32(m.blockSize));
  }

  lemma BlockPacketBytes(b: BlockFields)
    requires DataInBuffer(b)
    ensures EncodePacket(Block(b)) == [BlockPacket] + EncodeBlock(b)
  {
    FourFields(TypeByte(BlockPacket), I64(b.blockIndex), I32(b.size), Raw(GetData(b)));
  }

  lemma EofPacketBytes(e: EofFields)
    ensures EncodePacket(Eof(e)) == [FileEofPacket] + EncodeEof(e)
  {
    ThreeFields(TypeByte(FileEofPacket), U16(|e.digest|), Raw(e.digest));
  }

  lemma ThreeFields(f0: Field, f1: Field, f2: Field)
    ensures EncodeFields([f0, f1, f2]) == EncodeField(f0) + (EncodeField(f1) + EncodeField(f2))
  {
    var l := [f0, f1, f2];
    assert l[0..] == l && l[3..] == [];
    EncodeFieldsAt(l, 0);
    EncodeFieldsAt(l, 1);
    EncodeFieldsAt(l, 2);
  }

  lemma FourFields(f0: Field, f1: Field, f2: Field, f3: Field)
    ensures EncodeFields([f0, f1, f2, f3]) == EncodeField(f0) + (EncodeField(f1) + EncodeField(f2) + EncodeField(f3))
  {
    var l := [f0, f1, f2, f3];
    assert l[1..] == [f1, f2, f3];
    EncodeFieldsAt(l, 0);
    ThreeFields(f1, f2, f3);
    Regroup(EncodeField(f1), EncodeField(f2), EncodeField(f3));
  }

  lemma FiveFields(f0: Field, f1: Field, f2: Field, f3: Field, f4: Field)
    ensures EncodeFields([f0, f1, f2, f3, f4])
      == EncodeField(f0) + (EncodeField(f1) + EncodeField(f2) + EncodeField(f3) + EncodeField(f4))
  {
    var l := [f0, f1, f2, f3, f4];
    assert l[1..] == [f1, f2, f3, f4];
    EncodeFieldsAt(l, 0);
    FourFields(f1, f2, f3, f4);
    var a, b, c, d := EncodeField(f1), EncodeField(f2), EncodeField(f3), EncodeField(f4);
    Regroup(a, b + c, d);
    Regroup(a, b, c);
  }

  function EncodePackets(ps: seq<Packet>): Bytes
    requires forall i | 0 <= i < |ps| :: Encodable(ps[i])
  {
    if ps == [] then [] else EncodePacket(ps[0]) + EncodePackets(ps[1..])
  }

  /** Writing two runs of packets one after the other emits the two
      encodings one after the other. */
  lemma {:induction false} EncodePacketsAppend(a: seq<Packet>, b: seq<Packet>)
    requires forall i | 0 <= i < |a| :: Encodable(a[i])
    requires forall i | 0 <= i < |b| :: Encodable(b[i])
    ensures forall i | 0 <= i < |a + b| :: Encodable((a + b)[i])
    ensures EncodePackets(a + b) == EncodePackets(a) + EncodePackets(b)
    decreases |a|
  {
    if a != [] {
      assert (a + b)[1..] == a[1..] + b;
      EncodePacketsAppend(a[1..], b);
    } else {
      assert a + b == b;
    }
  }

  // ---------------------------------------------------------------- decoding

  /** FileMetadata.Read. Errors from the fixed-size reads are ignored: a
      missing name length counts as 0, a missing size field keeps its old
      value. The name buffer is allocated at the announced length and
      `io.ReadFull`'s result is ignored, so a short name comes back padded
      with zero bytes; the source's `len(namebuf) != namelen` test can never
      fire and Read always returns nil. */
  function DecodeMetadata(s: Bytes, pos: nat, prev: MetadataFields): (d: Decoded<MetadataFields>)
    requires pos <= |s|
    ensures pos <= d.pos <= |s|
  {
    var lenRead := ReadFullAt(s, pos, 2);
    var nameLen := if lenRead.ok then DecodeU16(lenRead.bytes) else 0;
    var nameRead := ReadFullAt(s, lenRead.pos, nameLen);
    var name := nameRead.bytes + Zeros(nameLen - |nameRead.bytes|);
    var sizeRead := ReadFullAt(s, nameRead.pos, 8);
    var blockRead := ReadFullAt(s, sizeRead.pos, 4);
    Decoded(
      MetadataFields(
        name,
        if sizeRead.ok then DecodeI64(sizeRead.bytes) else prev.totalSize,
        if blockRead.ok then DecodeI32(blockRead.bytes) else prev.blockSize),
      blockRead.pos,
      Ok)
  }

  /** BlockInfo.Read. The errors of the two fixed-size reads are overwritten,
      so a field that cannot be read keeps its old value; only the payload
      read decides the result. The buffer is reallocated at the (possibly
      old) size: a negative size makes Go's `make` panic, and a short payload
      leaves the buffer padded with zero bytes. */
  function DecodeBlock(s: Bytes, pos: nat, prev: BlockFields): (d: Decoded<BlockFields>)
    requires pos <= |s|
    ensures pos <= d.pos <= |s|
  {
    var indexRead := ReadFullAt(s, pos, 8);
    var index := if indexRead.ok then DecodeI64(indexRead.bytes) else prev.blockIndex;
    var sizeRead := ReadFullAt(s, indexRead.pos, 4);
    var size := if sizeRead.ok then DecodeI32(sizeRead.bytes) else prev.size;
    if size < 0 then
      Decoded(BlockFields(index, size, prev.buffer), sizeRead.pos, NegativeLength)
    else
      var dataRead := ReadFullAt(s, sizeRead.pos, size);
      Decoded(
        BlockFields(index, size, dataRead.bytes + Zeros(size - |dataRead.bytes|)),
        dataRead.pos,
        if dataRead.ok then Ok else ShortRead)
  }

  /** FileEOF.Read: fails, leaving the digest as it was, when the length or
      the digest bytes cannot be read in full. */
  function DecodeEof(s: Bytes, pos: nat, prev: EofFields): (d: Decoded<EofFields>)
    requires pos <= |s|
    ensures pos <= d.pos <= |s|
  {
    var lenRead := ReadFullAt(s, pos, 2);
    if !lenRead.ok then Decoded(prev, lenRead.pos, ShortRead)
    else
      var digestRead := ReadFullAt(s, lenRead.pos, DecodeU16(lenRead.bytes));
      if !digestRead.ok then Decoded(prev, digestRead.pos, ShortRead)
      else Decoded(EofFields(digestRead.bytes), digestRead.pos, Ok)
  }

  /** Appending fields one at a time appends their concatenation. */
  lemma AppendTwo(w: Bytes, a: Bytes, b: Bytes)
    ensures w + a + b == w + (a + b)
  {
  }

  lemma AppendThree(w: Bytes, a: Bytes, b: Bytes, c: Bytes)
    ensures w + a + b + c == w + (a + b + c)
  {
  }

  lemma AppendFour(w: Bytes, a: Bytes, b: Bytes, c: Bytes, d: Bytes)
    ensures w + a + b + c + d == w + (a + b + c + d)
  {
  }

  // ------------------------------------------------------------ round trips

  /** The bytes of s from pos on start with e. */
  predicate StartsWithAt(s: Bytes, pos: nat, e: Bytes)
    decreases |e|
  {
    pos + |e| <= |s| && (e == [] || (s[pos] == e[0] && StartsWithAt(s, pos + 1, e[1..])))
  }

  /** StartsWithAt, as a slice of the stream. */
  lemma {:induction false} StartsWithAtSlice(s: Bytes, pos: nat, e: Bytes)
    ensures StartsWithAt(s, pos, e) <==> pos + |e| <= |s| && s[pos..pos + |e|] == e
    decreases |e|
  {
    if e != [] && pos + |e| <= |s| {
      StartsWithAtSlice(s, pos + 1, e[1..]);
      assert s[pos..pos + |e|] == [s[pos]] + s[pos + 1..pos + 1 + |e[1..]|];
      assert e == [e[0]] + e[1..];
    }
  }

  /** A stream that starts with a + rest delivers a in full to a read of
      |a| bytes, and is left starting with rest. */
  lemma ReadPrefix(s: Bytes, pos: nat, a: Bytes, rest: Bytes)
    requires StartsWithAt(s, pos, a + rest)
    ensures ReadFullAt(s, pos, |a|) == Chunk(a, pos + |a|, true)
    ensures StartsWithAt(s, pos, a) && StartsWithAt(s, pos + |a|, rest)
  {
    var e := a + rest;
    StartsWithAtSlice(s, pos, e);
    StartsWithAtSlice(s, pos, a);
    StartsWithAtSlice(s, pos + |a|, rest);
    assert s[pos..pos + |a|] == e[..|a|] == a;
    assert s[pos + |a|..pos + |e|] == e[|a|..] == rest;
  }

  /** A stream that starts with a + rest starts with a, and with rest just after it. */
  lemma SplitStart(s: Bytes, pos: nat, a: Bytes, rest: Bytes)
    requires StartsWithAt(s, pos, a + rest)
    ensures StartsWithAt(s, pos, a) && StartsWithAt(s, pos + |a|, rest)
  {
    ReadPrefix(s, pos, a, rest);
  }

  lemma ReadField(s: Bytes, pos: nat, a: Bytes)
    requires StartsWithAt(s, pos, a)
    ensures ReadFullAt(s, pos, |a|) == Chunk(a, pos + |a|, true)
  {
    StartsWithAtSlice(s, pos, a);
  }

  /** Reading back three consecutive fields, each in full. */
  lemma ReadFields3(s: Bytes, pos: nat, a: Bytes, b: Bytes, c: Bytes)
    requires StartsWithAt(s, pos, a + b + c)
    ensures ReadFullAt(s, pos, |a|) == Chunk(a, pos + |a|, true)
    ensures ReadFullAt(s, pos + |a|, |b|) == Chunk(b, pos + |a| + |b|, true)
    ensures ReadFullAt(s, pos + |a| + |b|, |c|) == Chunk(c, pos + |a| + |b| + |c|, true)
  {
    Regroup(a, b, c);
    ReadPrefix(s, pos, a, b + c);
    ReadPrefix(s, pos + |a|, b, c);
    ReadField(s, pos + |a| + |b|, c);
  }

  /** Reading back four consecutive fields, each in full. */
  lemma ReadFields4(s: Bytes, pos: nat, a: Bytes, b: Bytes, c: Bytes, d: Bytes)
    requires StartsWithAt(s, pos, a + b + c + d)
    ensures ReadFullAt(s, pos, |a|) == Chunk(a, pos + |a|, true)
    ensures ReadFullAt(s, pos + |a|, |b|) == Chunk(b, pos + |a| + |b|, true)
    ensures ReadFullAt(s, pos + |a| + |b|, |c|) == Chunk(c, pos + |a| + |b| + |c|, true)
    ensures ReadFullAt(s, pos + |a| + |b| + |c|, |d|) == Chunk(d, pos + |a| + |b| + |c| + |d|, true)
  {
    AppendThree(a, b, c, d);
    ReadPrefix(s, pos, a, b + c + d);
    ReadFields3(s, pos + |a|, b, c, d);
  }

  /** FileMetadata.Read on a stream that holds all four fields in full
      returns exactly them. */
  lemma MetadataReadInFull(s: Bytes, pos: nat, prev: MetadataFields, len: Bytes, name: Bytes, size: Bytes, block: Bytes)
    requires pos <= |s| && |len| == 2 && |size| == 8 && |block| == 4
    requires ReadFullAt(s, pos, 2) == Chunk(len, pos + 2, true)
    requires DecodeU16(len) == |name|
    requires ReadFullAt(s, pos + 2, |name|) == Chunk(name, pos + 2 + |name|, true)
    requires ReadFullAt(s, pos + 2 + |name|, 8) == Chunk(size, pos + 2 + |name| + 8, true)
    requires ReadFullAt(s, pos + 2 + |name| + 8, 4) == Chunk(block, pos + 2 + |name| + 8 + 4, true)
    ensures DecodeMetadata(s, pos, prev)
      == Decoded(MetadataFields(name, DecodeI64(size), DecodeI32(block)), pos + 2 + |name| + 8 + 4, Ok)
  {
    assert name + Zeros(0) == name;
  }

  /** Reading what FileMetadata.Write wrote gives back the same name, total
      size and block size, and consumes exactly the encoding, whatever the
      receiver held before, for any name shorter than 65536 bytes (the empty
      name included). */
  lemma MetadataRoundTrip(m: MetadataFields, s: Bytes, pos: nat, prev: MetadataFields)
    requires |m.name| < TwoTo16
    requires StartsWithAt(s, pos, EncodeMetadata(m))
    ensures DecodeMetadata(s, pos, prev) == Decoded(m, pos + |EncodeMetadata(m)|, Ok)
  {
    var len, size, block := EncodeU16(|m.name|), EncodeI64(m.totalSize), EncodeI32(m.blockSize);
    ReadFields4(s, pos, len, m.name, size, block);
    U16RoundTrip(|m.name|);
    I64RoundTrip(m.totalSize);
    I32RoundTrip(m.blockSize);
    MetadataReadInFull(s, pos, prev, len, m.name, size, block);
  }

  /** A name of 65536 bytes or more does not survive: Write announces only
      the low 16 bits of its length, and Read takes that many bytes as the name. */
  lemma MetadataLongNameTruncated(m: MetadataFields, s: Bytes, pos: nat, prev: MetadataFields)
    requires |m.name| >= TwoTo16
    requires StartsWithAt(s, pos, EncodeMetadata(m))
    ensures DecodeMetadata(s, pos, prev).fields.name == m.name[..|m.name| % TwoTo16] != m.name
  {
    var n := |m.name| % TwoTo16;
    var tail := m.name[n..] + EncodeI64(m.totalSize) + EncodeI32(m.blockSize);
    LongNameEncoding(m);
    ReadFields3(s, pos, EncodeU16(n), m.name[..n], tail);
    U16RoundTrip(n);
    assert m.name[..n] + Zeros(0) == m.name[..n];
  }

  /** The encoding of a long name announces only the first |name| mod 65536
      bytes; the rest of the name follows as if it were the size fields. */
  lemma LongNameEncoding(m: MetadataFields)
    ensures var n := |m.name| % TwoTo16;
      EncodeMetadata(m)
        == EncodeU16(n) + m.name[..n] + (m.name[n..] + EncodeI64(m.totalSize) + EncodeI32(m.blockSize))
  {
    var n := |m.name| % TwoTo16;
    assert n % TwoTo16 == |m.name| % TwoTo16;
    assert EncodeU16(|m.name|) == EncodeU16(n);
    assert m.name == m.name[..n] + m.name[n..];
  }

  /** FileMetadata.Read never reports an error: when the stream ends inside
      the name, the name is the bytes that arrived padded with zero bytes to
      the announced length, and both sizes keep their previous values. */
  lemma MetadataShortNameAccepted(s: Bytes, pos: nat, prev: MetadataFields)
    requires pos + 2 <= |s|
    requires pos + 2 + DecodeU16(s[pos..pos + 2]) > |s|
    ensures var n := DecodeU16(s[pos..pos + 2]);
      DecodeMetadata(s, pos, prev)
        == Decoded(MetadataFields(s[pos + 2..] + Zeros(n - (|s| - pos - 2)), prev.totalSize, prev.blockSize), |s|, Ok)
  {
  }

  /** Whatever the stream holds, FileMetadata.Read succeeds, and the name it
      produces always has the announced length (0 when no length arrived). */
  lemma MetadataReadNeverFails(s: Bytes, pos: nat, prev: MetadataFields)
    requires pos <= |s|
    ensures DecodeMetadata(s, pos, prev).status == Ok
    ensures |DecodeMetadata(s, pos, prev).fields.name| == if pos + 2 <= |s| then DecodeU16(s[pos..pos + 2]) else 0
  {
  }

  /** Reading what BlockInfo.Write wrote gives back the index, the size and
      the data (the first `size` bytes of the sender's buffer). */
  lemma BlockRoundTrip(b: BlockFields, s: Bytes, pos: nat, prev: BlockFields)
    requires DataInBuffer(b)
    requires StartsWithAt(s, pos, EncodeBlock(b))
    ensures DecodeBlock(s, pos, prev)
      == Decoded(BlockFields(b.blockIndex, b.size, GetData(b)), pos + |EncodeBlock(b)|, Ok)
  {
    ReadFields3(s, pos, EncodeI64(b.blockIndex), EncodeI32(b.size), GetData(b));
    I64RoundTrip(b.blockIndex);
    I32RoundTrip(b.size);
    assert GetData(b) + Zeros(0) == GetData(b);
  }

  /** A block whose header arrived but whose payload is cut short is an
      error, and the stream is consumed to its end. */
  lemma BlockShortPayloadFails(s: Bytes, pos: nat, prev: BlockFields)
    requires pos + 12 <= |s|
    requires 0 <= DecodeI32(s[pos + 8..pos + 12])
    requires |s| < pos + 12 + DecodeI32(s[pos + 8..pos + 12])
    ensures var d := DecodeBlock(s, pos, prev);
      && d.status == ShortRead
      && d.pos == |s|
      && d.fields.blockIndex == DecodeI64(s[pos..pos + 8])
      && d.fields.size == DecodeI32(s[pos + 8..pos + 12])
  {
  }

  /** A negative announced size makes the read panic. */
  lemma BlockNegativeSizePanics(s: Bytes, pos: nat, prev: BlockFields)
    requires pos + 12 <= |s|
    requires DecodeI32(s[pos + 8..pos + 12]) < 0
    ensures DecodeBlock(s, pos, prev).status == NegativeLength
  {
  }

  /** BlockInfo.Read drops the errors of its header reads: on a stream that
      has already ended, the receiver keeps its old index and size, and when
      the old size is 0 the read even reports success. */
  lemma BlockHeaderErrorsDropped(s: Bytes, prev: BlockFields)
    ensures var d := DecodeBlock(s, |s|, prev);
      && d.fields.blockIndex == prev.blockIndex
      && d.fields.size == prev.size
      && d.pos == |s|
      && d.status == (if prev.size < 0 then NegativeLength else if prev.size == 0 then Ok else ShortRead)
  {
  }

  /** Reading what FileEOF.Write wrote gives back the digest, the empty digest
      included, for any digest shorter than 65536 bytes. */
  lemma EofRoundTrip(e: EofFields, s: Bytes, pos: nat, prev: EofFields)
    requires |e.digest| < TwoTo16
    requires StartsWithAt(s, pos, EncodeEof(e))
    ensures DecodeEof(s, pos, prev) == Decoded(e, pos + |EncodeEof(e)|, Ok)
  {
    var len := EncodeU16(|e.digest|);
    ReadPrefix(s, pos, len, e.digest);
    U16RoundTrip(|e.digest|);
    ReadField(s, pos + 2, e.digest);
  }

  /** A stream with fewer digest bytes than announced, or without a complete
      length, is an error and leaves the previous digest in place. */
  lemma EofShortDigestFails(s: Bytes, pos: nat, prev: EofFields)
    requires pos <= |s|
    requires pos + 2 <= |s| ==> |s| < pos + 2 + DecodeU16(s[pos..pos + 2])
    ensures DecodeEof(s, pos, prev) == Decoded(prev, |s|, ShortRead)
  {
  }
}
