/** The three packet structs of the protocol, whose `Read` methods assign
    their fields in place (the receiver reuses one object of each kind for a
    whole connection, and a registered file shares the metadata object of the
    session that created it). Each `Write` and `Read` is proved against the
    pure encoding and decoding functions of the codec. */
module Packets {
  import opened Bytes
  import opened Stream
  import opened Codec

  class FileMetadata {
    var name: Bytes
    var totalSize: int64
    var blockSize: int32

    /** `new(FileMetadata)`: every field at its zero value. */
    constructor ()
      ensures Fields() == MetadataFields([], 0, 0)
    {
      name, totalSize, blockSize := [], 0, 0;
    }

    function Fields(): MetadataFields
      reads this
    {
      MetadataFields(name, totalSize, blockSize)
    }

    /** FileMetadata.CalcSize: the length of what Write emits. */
    function CalcSize(): (n: int)
      reads this
      ensures n == |EncodeMetadata(Fields())|
    {
      2 + |name| + 8 + 4
    }

    /** FileMetadata.Write: the four fields, one after the other. */
    method Write(w: Writer)
      modifies w
      ensures w.written == old(w.written) + EncodeMetadata(Fields())
    {
      var len, size, block := EncodeU16(|name|), EncodeI64(totalSize), EncodeI32(blockSize);
      ghost var before := w.written;
      w.Write(len);
      w.Write(name);
      w.Write(size);
      w.Write(block);
      AppendFour(before, len, name, size, block);
    }

    /** FileMetadata.Read. The error of the length read is ignored (the
        length stays 0), the name read's result is ignored, and a size field
        that cannot be read keeps its value. The source's check that the name
        buffer has the announced length compares a buffer with the length it
        was allocated with, so it never fires and is not modelled. */
    method Read(r: Reader) returns (status: Status)
      requires r.Valid()
      modifies this, r
      ensures r.Valid()
      ensures Decoded(Fields(), r.pos, status) == DecodeMetadata(r.data, old(r.pos), old(Fields()))
    {
      var lenBytes, lenOk := r.ReadFull(2);
      var nameLen := if lenOk then DecodeU16(lenBytes) else 0;
      var nameBuf, _ := r.ReadFull(nameLen);
      name := nameBuf + Zeros(nameLen - |nameBuf|);
      var sizeBytes, sizeOk := r.ReadFull(8);
      if sizeOk {
        totalSize := DecodeI64(sizeBytes);
      }
      var blockBytes, blockOk := r.ReadFull(4);
      if blockOk {
        blockSize := DecodeI32(blockBytes);
      }
      status := Ok;
    }
  }

  class BlockInfo {
    var blockIndex: int64
    var size: int32
    var buffer: Bytes

    /** A block with the given buffer and zero index and size, as
        `new(BlockInfo)` followed by an assignment of `buffer`. */
    constructor (buffer: Bytes)
      ensures Fields() == BlockFields(0, 0, buffer)
    {
      blockIndex, size, this.buffer := 0, 0, buffer;
    }

    function Fields(): BlockFields
      reads this
    {
      BlockFields(blockIndex, size, buffer)
    }

    /** BlockInfo.CalcSize counts the whole buffer, so it is the length of
        what Write emits exactly when the buffer holds `size` bytes. */
    function CalcSize(): (n: int)
      reads this
      ensures DataInBuffer(Fields()) ==> (n == |EncodeBlock(Fields())| <==> size == |buffer|)
    {
      8 + 4 + |buffer|
    }

    /** BlockInfo.Write: index, size, then GetData(); GetData panics unless
        the size fits in the buffer. */
    method Write(w: Writer)
      requires DataInBuffer(Fields())
      modifies w
      ensures w.written == old(w.written) + EncodeBlock(Fields())
    {
      var index, sizeField, data := EncodeI64(blockIndex), EncodeI32(size), GetData(Fields());
      ghost var before := w.written;
      w.Write(index);
      w.Write(sizeField);
      w.Write(data);
      AppendThree(before, index, sizeField, data);
    }

    /** BlockInfo.Read. Both header reads assign `err`, and the second
        assignment hides the first; the payload read then overwrites `err`
        again, so only the payload decides the result. A negative size makes
        `make` panic, which is reported as `NegativeLength`. */
    method Read(r: Reader) returns (status: Status)
      requires r.Valid()
      modifies this, r
      ensures r.Valid()
      ensures Decoded(Fields(), r.pos, status) == DecodeBlock(r.data, old(r.pos), old(Fields()))
    {
      var indexBytes, indexOk := r.ReadFull(8);
      if indexOk {
        blockIndex := DecodeI64(indexBytes);
      }
      var sizeBytes, sizeOk := r.ReadFull(4);
      if sizeOk {
        size := DecodeI32(sizeBytes);
      }
      if size < 0 {
        return NegativeLength;
      }
      var data, ok := r.ReadFull(size);
      buffer := data + Zeros(size - |data|);
      status := if ok then Ok else ShortRead;
    }
  }

  class FileEOF {
    var digest: Bytes

    constructor ()
      ensures Fields() == EofFields([])
    {
      digest := [];
    }

    function Fields(): EofFields
      reads this
    {
      EofFields(digest)
    }

    /** FileEOF.CalcSize: the length of what Write emits. */
    function CalcSize(): (n: int)
      reads this
      ensures n == |EncodeEof(Fields())|
    {
      2 + |digest|
    }

    method Write(w: Writer)
      modifies w
      ensures w.written == old(w.written) + EncodeEof(Fields())
    {
      var len := EncodeU16(|digest|);
      ghost var before := w.written;
      w.Write(len);
      w.Write(digest);
      AppendTwo(before, len, digest);
    }

    /** FileEOF.Read: the digest is assigned only when both reads succeed. */
    method Read(r: Reader) returns (status: Status)
      requires r.Valid()
      modifies this, r
      ensures r.Valid()
      ensures Decoded(Fields(), r.pos, status) == DecodeEof(r.data, old(r.pos), old(Fields()))
    {
      var lenBytes, lenOk := r.ReadFull(2);
      if !lenOk {
        return ShortRead;
      }
      var buf, ok := r.ReadFull(DecodeU16(lenBytes));
      if !ok {
        return ShortRead;
      }
      digest := buf;
      status := Ok;
    }
  }

  /** A value of the `Packet` interface: one of the three structs. */
  datatype PacketRef =
    | MetadataRef(meta: FileMetadata)
    | BlockRef(block: BlockInfo)
    | EofRef(eof: FileEOF)
  {
    function Obj(): object
    {
      match this
      case MetadataRef(m) => m
      case BlockRef(b) => b
      case EofRef(e) => e
    }

    /** The packet the struct currently holds. */
    function Value(): Packet
      reads Obj()
    {
      match this
      case MetadataRef(m) => Metadata(m.Fields())
      case BlockRef(b) => Block(b.Fields())
      case EofRef(e) => Eof(e.Fields())
    }
  }

  /** WritePacket: the packet type byte, then the struct's own Write. */
  method WritePacket(p: PacketRef, w: Writer)
    requires Encodable(p.Value())
    modifies w
    ensures w.written == old(w.written) + EncodePacket(p.Value())
  {
    ghost var before := w.written;
    PacketBytes(p.Value());
    match p
    case MetadataRef(m) =>
      w.Write([FileMetadataPacket]);
      m.Write(w);
      AppendTwo(before, [FileMetadataPacket], EncodeMetadata(m.Fields()));
    case BlockRef(b) =>
      w.Write([BlockPacket]);
      b.Write(w);
      AppendTwo(before, [BlockPacket], EncodeBlock(b.Fields()));
    case EofRef(e) =>
      w.Write([FileEofPacket]);
      e.Write(w);
      AppendTwo(before, [FileEofPacket], EncodeEof(e.Fields()));
  }
}
