# gsdt: a verified model of the transfer protocol

gsdt sends one file over several TCP connections ("tunnels") at once. The
sending client cuts the file into blocks of a fixed nominal size. Its
producer, `ReadBlocks`, reads the blocks in index order, feeds each one to
an MD5 hash and puts it on a block channel. Each tunnel writes a metadata
packet, then every block it takes off the channel, then an EOF packet that
carries the digest. The receiving server keeps a registry of the files it
is receiving, keyed by name. Each connection (a session) runs the loop
`serveOne`: it reads a one-byte packet type, decodes the packet into one of
three structs it reuses, and hands it to a handler. `handleFileMetadata`
gets or creates the registry entry. `handleBlock` writes a block's data at
`blockSize * blockIndex`. On the EOF packet the loop records the digest and
calls `handleBlock` once more. When the connection ends, `closeSession`
detaches the session; the last session to leave closes the file and
compares its MD5 with the recorded digest.

The model has these modules:

- Bytes: Go's fixed-width integers (`int64`, `int32`, `uint16`), with
  explicit wrap-around and truncating division, big-endian encodings, and
  lowercase hex.
- Stream: `io.ReadFull` on a byte stream with a cursor (`Reader`), and
  an append-only `Writer`.
- Blocks: `CalcBlockCount` and `CalcBlockSize`, computed in the source's
  int64/int32 arithmetic, and what they mean.
- Codec: the wire format as pure encode and decode functions, with
  round trips and each decoder's error behaviour.
- Packets: the three packet structs as classes whose `Write` and `Read`
  methods are proved against the codec, and `WritePacket`.
- Sink: what `WriteAt` and `Truncate` do to a file's bytes, and why
  blocks written at their offsets rebuild the source in any order.
- Receiver: the server's registry, sessions and files, and the three
  handlers as methods that change that state in place.
- Serve: `serveOne`'s dispatch loop, proved against a pure function
  `Receive` of the bytes on the connection.
- Sender: the client, meaning `OpenFile`, `GetBlock`, `NewBlock`,
  `ReadBlock`, the `ReadBlocks` loop, and a tunnel's `Run` loop. Each is
  proved against pure functions of the source bytes (`Publish`) and of the
  blocks a tunnel took (`TunnelPackets`).
- Transfer: sender and receiver together. A tunnel's bytes, received by
  `serveOne`, give back the metadata, every block's data and the EOF
  packet. `ServeTunnel` runs the modelled `serveOne` on the bytes one tunnel
  wrote for an intact source and a new name: the file on disk ends up equal
  to the source, and the digest verdict is whether the source's MD5 is the
  digest the sender sent.

The model keeps the source's quirks as they are:

- An EOF packet re-runs `handleBlock` on the block struct, which still
  holds the previous block.
- `ReadBlock` returns nil on a short read, and a tunnel treats that nil as
  the end of the stream.
- `FileMetadata.Read` never fails.
- `BlockInfo.Read` discards the errors of its two header reads.
- A decode failure ends `serveOne` without `closeSession`.
- `closeSession` on a session that never got a file dereferences nil.
- The tunnel's error check after `WritePacket` reads a stale error, so it
  never fires.

## Model

| member | source | states |
|---|---|---|
| Bytes.ToInt64 | server.go:95 | a value already in the int64 range passes the conversion unchanged (values outside it wrap) |
| Bytes.ToInt32 | client.go:137 | a value already in the int32 range passes the conversion unchanged |
| Bytes.Quot | protocol.go:53 | Go's division truncates toward zero: it is Euclidean division for a non-negative dividend and the negated quotient of the magnitude for a negative one |
| Bytes.BigEndianRoundTrip | protocol.go:58-61 | reading back n big-endian bytes of any x below 256^n gives x |
| Bytes.U16RoundTrip | protocol.go:58-67 | the two-byte length prefix decodes to the length that was written |
| Bytes.I64RoundTrip | protocol.go:108-117 | an int64 field (total size, block index) decodes to the value written, negative values included |
| Bytes.I32RoundTrip | protocol.go:109-118 | an int32 field (block size, size) decodes to the value written, negative values included |
| Bytes.Zeros | protocol.go:119 | `make` gives n bytes, all zero |
| Bytes.HexEncode | server.go:53 | the hex form has two characters per byte |
| Bytes.HexInjective | server.go:110 | two byte strings with equal hex forms are equal, so comparing hex digests compares digests |
| Stream.ReadFullAt | protocol.go:120 | io.ReadFull succeeds exactly when n bytes remain; it then returns them and advances by n; otherwise it returns what is left and stops at the end; the bytes are always the ones between the old and new cursor |
| Stream.Reader.ReadFull | client.go:131 | reading from the reader is ReadFullAt at its cursor, and the cursor moves to where ReadFullAt stops |
| Stream.Writer.Write | protocol.go:59 | the bytes are appended to everything written before |
| Blocks.CalcBlockCount | protocol.go:51-54 | for valid sizes no int64 conversion changes a value and Go's truncating division is the ordinary one: the count is (totalSize + blockSize - 1) / blockSize and never negative |
| Blocks.CountFits | protocol.go:52-53 | for valid sizes `totalSize + blockSize - 1` fits in int64, and so does its non-negative quotient |
| Blocks.BlockCountIsCeil | protocol.go:51-54 | the block count is ceil(totalSize / blockSize): zero exactly for an empty file, that many blocks cover the file and one fewer do not |
| Blocks.CalcBlockSize | protocol.go:40-49 | for any nonzero block size, an index below 0 or at or past the block count, or a block count of 0 or less, gives -1; for valid sizes the size is -1 exactly for such an index, and every block holds 1 to blockSize bytes |
| Blocks.LastBlockFits | protocol.go:47 | the last block's remainder, computed in int64 and converted to int32, is exact and between 1 and blockSize |
| Blocks.BlockSizeInRange | protocol.go:45-48 | every block has 1 to blockSize bytes; all but the last have blockSize; the last has totalSize - blockSize * (count - 1), which is blockSize when blockSize divides totalSize |
| Blocks.SumBlockSizesIsStart | protocol.go:40-54 | the sizes of the first n blocks add up to where block n starts |
| Blocks.BlockSizesSumToTotal | protocol.go:40-54 | the sizes of all blocks add up to totalSize |
| Blocks.BlockBounds | server.go:95 | block i starts at blockSize * i, the offset handleBlock writes at, and ends where block i + 1 starts, within the file |
| Blocks.ByteInBlockIff | server.go:95-96 | byte k of the file lies in block i exactly when i == k / blockSize, so distinct blocks cover disjoint ranges |
| Blocks.ByteHasBlock | server.go:95-96 | every byte of the file lies in some block |
| Blocks.ReadableBlocksIff | client.go:131-135 | with avail bytes in the source, block i can be read in full exactly when i is below ReadableBlocks |
| Blocks.ReadablePrefixAvailable | client.go:131-135 | the blocks that can be read in full are a prefix of the blocks, and the source holds all their bytes |
| Codec.GetData | protocol.go:103-105 | the data is the first `size` bytes of the buffer |
| Codec.EncodeMetadata | protocol.go:56-63 | the metadata body is a 2-byte length, the name, 8 bytes of totalSize and 4 of blockSize; MetadataRoundTrip is its inverse |
| Codec.EncodeBlock | protocol.go:107-114 | the block body is 8 bytes of index, 4 of size and exactly `size` data bytes; BlockRoundTrip is its inverse |
| Codec.EncodeEof | protocol.go:136-141 | the EOF body is a 2-byte length and the digest; EofRoundTrip is its inverse |
| Codec.EncodePacket | protocol.go:86-90 | a packet's encoding has exactly the wire size of its kind; DispatchEncoded is its inverse |
| Codec.PacketBytes | protocol.go:86-90 | a packet on the wire is its one type byte followed by its body |
| Codec.MetadataPacketBytes | protocol.go:9-13 | a metadata packet starts with type byte 1 |
| Codec.BlockPacketBytes | protocol.go:9-13 | a block packet starts with type byte 2 |
| Codec.EofPacketBytes | protocol.go:9-13 | an EOF packet starts with type byte 3 |
| Codec.EncodePacketsAppend | client.go:194-214 | packets written one after another are the concatenation of their encodings |
| Codec.DecodeMetadata | protocol.go:65-80 | decoding metadata never moves the cursor back or past the end of the stream |
| Codec.DecodeBlock | protocol.go:116-126 | decoding a block never moves the cursor back or past the end of the stream |
| Codec.DecodeEof | protocol.go:143-159 | decoding an EOF packet never moves the cursor back or past the end of the stream |
| Codec.MetadataRoundTrip | protocol.go:56-80 | for a name shorter than 65536 bytes, reading what Write emitted gives back name, totalSize and blockSize, consumes exactly the encoding and succeeds |
| Codec.MetadataLongNameTruncated | protocol.go:56-80 | a name of 65536 bytes or more comes back cut to its length mod 65536, which differs from the name sent |
| Codec.LongNameEncoding | protocol.go:58-59 | the length prefix carries the name length mod 65536 while the whole name follows it |
| Codec.MetadataShortNameAccepted | protocol.go:69-79 | when fewer name bytes remain than announced, Read still succeeds with the name padded with zero bytes, keeps both sizes and stops at the end |
| Codec.MetadataReadNeverFails | protocol.go:65-80 | FileMetadata.Read always reports success, and the name has the announced length (0 when no length can be read) |
| Codec.BlockRoundTrip | protocol.go:103-126 | reading what Write emitted gives back the index, the size and exactly the data, consumes the encoding and succeeds |
| Codec.BlockShortPayloadFails | protocol.go:119-124 | when fewer payload bytes remain than the size announces, Read fails at the end of the stream with the header fields it read |
| Codec.BlockNegativeSizePanics | protocol.go:118-119 | a negative size makes the allocation panic |
| Codec.BlockHeaderErrorsDropped | protocol.go:116-126 | at the end of the stream both header reads fail silently, index and size keep their old values, and only the payload read decides the result (success for a size of 0) |
| Codec.EofRoundTrip | protocol.go:136-159 | reading what Write emitted gives back the digest, the empty one included, and succeeds |
| Codec.EofShortDigestFails | protocol.go:143-156 | when the length or the digest cannot be read in full, Read fails at the end of the stream and the digest keeps its old value |
| Packets.FileMetadata.constructor | client.go:155 | a new metadata struct has an empty name and zero sizes |
| Packets.FileMetadata.CalcSize | protocol.go:82-84 | CalcSize is the length of what Write emits |
| Packets.FileMetadata.Write | protocol.go:56-63 | appends the length, the name, totalSize and blockSize, big-endian |
| Packets.FileMetadata.Read | protocol.go:65-80 | the fields, the cursor and the status after Read are what DecodeMetadata gives from the old cursor and the old fields |
| Packets.BlockInfo.constructor | server.go:126-127 | a new block struct holds the given buffer with zero index and size |
| Packets.BlockInfo.CalcSize | protocol.go:128-130 | CalcSize is the length of what Write emits exactly when the buffer holds `size` bytes |
| Packets.BlockInfo.Write | protocol.go:107-114 | appends the index, the size and GetData() |
| Packets.BlockInfo.Read | protocol.go:116-126 | the fields, the cursor and the status after Read are what DecodeBlock gives from the old cursor and the old fields |
| Packets.FileEOF.constructor | client.go:157 | a new EOF struct has an empty digest |
| Packets.FileEOF.CalcSize | protocol.go:161-163 | CalcSize is the length of what Write emits |
| Packets.FileEOF.Write | protocol.go:136-141 | appends the digest length and the digest |
| Packets.FileEOF.Read | protocol.go:143-159 | the digest, the cursor and the status after Read are what DecodeEof gives from the old cursor and the old digest |
| Packets.WritePacket | protocol.go:86-90 | appends the encoding of the packet the struct holds: the type byte, then the body |
| Sink.WriteAt | server.go:96 | the data replaces the bytes at [off, off + length); bytes elsewhere are kept; a gap past the end reads as zeros; an empty write changes nothing |
| Sink.Truncate | server.go:81 | the file gets exactly n bytes: its first bytes kept, zeros past its old end |
| Sink.WriteBlock | server.go:93-98 | writing block i of the source at blockSize * i into a file of totalSize bytes sets exactly the bytes of block i to the source's and keeps the length |
| Sink.ApplyBlocksContents | server.go:93-98 | after writing blocks in any order, byte k is the source's byte if its block was written and the old byte otherwise |
| Sink.ApplyLast | server.go:93-98 | the last of a series of block writes changes exactly the bytes of its block |
| Sink.WrittenOnce | server.go:93-98 | one more block write on top of the earlier writes leaves a byte holding the source byte exactly when its block is among all the writes |
| Sink.Reassembly | server.go:93-98 | once every block has been written, in any order and with repeats, the file equals the source |
| Sink.OrderIrrelevant | server.go:93-98 | two arrival orders that contain the same blocks give the same file |
| Receiver.DigestMatchesIff | server.go:109-114 | the verdict is positive exactly when the file exists and its MD5 is the digest the sender sent |
| Receiver.Md5Sum | server.go:46-56 | md5sum fails exactly when the file cannot be opened; otherwise the digest has two hex characters per hash byte |
| Receiver.Detach | server.go:102-107 | the session leaves the file's set and no other does; the file is finalized exactly when the last session leaves a file not yet closed; a closed file stays closed |
| Receiver.MetadataHandled | server.go:62-91 | handleFileMetadata's effect never removes a registry entry, and the name is registered afterwards exactly when it was before or it could be opened with a non-negative size |
| Receiver.BlockHandled | server.go:93-98 | handleBlock's effect changes no file other than the session's own |
| Receiver.SessionClosed | server.go:100-116 | after closeSession the session is no longer attached to the file; the file is finalized exactly when it was not closed and this was its last session; a closed file is never finalized again |
| Receiver.NoEofNoMatch | server.go:109-111 | a file that never got an EOF packet (empty recorded digest) is never reported as matching |
| Receiver.AtMostOnce | server.go:102-107 | whatever the order in which sessions detach, a file is finalized at most once, and never once it is closed |
| Receiver.ExactlyOnce | server.go:102-107 | when every attached session detaches, an open file is finalized exactly once |
| Receiver.TransferFile.constructor | server.go:66-70 | a new entry shares the session's metadata object, has no sessions, no digest and is not closed |
| Receiver.Server.constructor | server.go:198-202 | NewServer starts with an empty registry |
| Receiver.TransferSession.constructor | server.go:120-122 | a new session belongs to the server and has no file |
| Receiver.TransferSession.HandleFileMetadata | server.go:62-91 | an existing entry only gains the session; a name that cannot be opened changes nothing; a negative size leaves the file created but unregistered; otherwise exactly one fresh entry is added, with only this session, and the file is resized to totalSize; the registry only grows, every entry it held keeps its file, and every entry it gains holds a fresh file |
| Receiver.TransferSession.HandleBlock | server.go:93-98 | the block's data is written at int64(blockSize) * blockIndex in the session's file when the file is open and the offset is not negative; the registry does not change |
| Receiver.TransferSession.CloseSession | server.go:100-116 | exactly this session leaves its file; the last session out of a file not yet closed closes it, removes its name from the registry and reports the digest verdict; otherwise the file stays registered |
| Serve.MetadataTurn | server.go:138-145 | a metadata packet is always handled and the loop goes on |
| Serve.BlockTurn | server.go:146-155 | a block packet is handled when it decodes; otherwise the loop stops with a panic or a break |
| Serve.EofTurn | server.go:156-166 | an EOF packet is handled when it decodes; otherwise the loop stops |
| Serve.PacketTurn | server.go:138-170 | the cursor stays within the stream |
| Serve.Dispatch | server.go:130-170 | a turn after which the loop goes on consumes at least one byte, so the loop ends |
| Serve.Receive | server.go:130-171 | the turns end with exactly one turn that stops the loop |
| Serve.ReceiveTurn | server.go:130-171 | the turns are one turn, then, unless it stopped the loop, the turns from where it left the cursor and the structs |
| Serve.Delivered | server.go:138-166 | a packet written in full never stops the loop |
| Serve.DispatchEncoded | server.go:130-166 | on a stream holding an encoded packet, one turn takes that packet back and stops right after it, whatever the reused structs held |
| Serve.DispatchEncodedMetadata | server.go:138-145 | the same, for a metadata packet |
| Serve.DispatchEncodedBlock | server.go:146-155 | the same, for a block packet |
| Serve.DispatchEncodedEof | server.go:156-166 | the same, for an EOF packet |
| Serve.ReceiveEncoded | server.go:118-172 | a connection carrying exactly the encodings of some packets is received as those packets, in order, then the end of the connection |
| Serve.TakeMetadata | server.go:138-145 | reads the packet as MetadataTurn says and applies handleFileMetadata's effect; the registry keeps every entry's file; the session's file afterwards is its old one, a fresh one, or the entry the packet named; every other file the registry held keeps every field |
| Serve.TakeBlock | server.go:146-155 | reads the packet as BlockTurn says; a decode failure ends the loop without changing the registry or the disk; a session without a file crashes; otherwise handleBlock's effect |
| Serve.TakeEof | server.go:156-166 | reads the packet as EofTurn says; on success records the hex digest on the file and writes the block struct once more |
| Serve.EndOfConnection | server.go:131-136 | the loop ends with closeSession's effect, or crashes when the session has no file |
| Serve.HandlePacket | server.go:138-170 | the turn after the type byte is PacketTurn; unknown types and decode failures end the loop without closeSession; each packet kind has its handler's effect; a turn that goes on keeps every entry's file; the session's file afterwards is its old one, a fresh one, or the entry a metadata packet named; every file the registry held other than the session's old and new one keeps every field |
| Serve.Step | server.go:130-171 | one turn is exactly what Dispatch predicts on the connection's bytes; the loop goes on exactly when the turn is not terminal and does not panic; a panic (a nil file, a negative block size) ends the session as Crashed; a decode failure or unknown type as Abandoned without closeSession; the end of the connection runs closeSession; a metadata, block or EOF turn has its handler's effect on the registry, the file and the disk; a turn that goes on keeps every entry's file; every file the registry held other than the session's old and new one keeps every field |
| Serve.ServeOne | server.go:118-172 | the turns taken are a prefix of what Receive predicts from fresh structs, all of them unless the loop crashed first; the session ends as its last turn says (Detached with closeSession's verdict on the end of the connection after a metadata packet, Crashed on a panic, Abandoned otherwise); a file the registry held keeps every field unless a metadata packet of the connection named its entry; on a connection carrying one tunnel's packets for a new name, the registry is as before, every file it held keeps every field, the new file holds every handled block written over its resized old contents, and the verdict is the digest check |
| Serve.TakeTurn | server.go:130-171 | one turn of serveOne's loop takes the next of the predicted turns, advances the cursor unless it stopped the loop, keeps a one-tunnel stream on track up to the finalized file, and keeps every file the registry held before the loop as it was unless a metadata turn named its entry |
| Serve.Turns | server.go:130-171 | serveOne's loop from a session without a file and empty structs: the turns taken are a prefix of what Receive predicts, the session ends as its last turn says, a one-tunnel stream ends as TunnelServed says, and a file the registry held keeps the recorded state unless a metadata turn named its entry |
| Serve.FrameAdvance | server.go:130-171 | a turn that changes only the session's old and new files, and takes the new one from the old one, a fresh one or a named entry, keeps every other file the registry held before the loop as it was |
| Serve.KeptUnchanged | server.go:118-172 | the files kept in the state recorded before the loop are the files the loop left as they were; all of them when no turn named an entry |
| Serve.TunnelAttachesNothing | server.go:138-145 | on a connection carrying one tunnel's packets for a new name, no turn names an entry the registry held |
| Serve.OnlyFirstMetadata | server.go:138-145 | the turns over one tunnel's packets name only the tunnel's metadata |
| Serve.DeliveredAt | server.go:138-166 | the j-th turn over the encodings of packets delivers the j-th packet |
| Serve.DeliveredLength | server.go:138-166 | packets written in full give one delivered turn each |
| Serve.ReplayTurn | server.go:130-171 | a turn that does what Dispatch predicts is the next of the predicted turns, and the last exactly when it stops the loop |
| Serve.HeldAfter | server.go:126-129 | decoding a packet into the reused structs keeps the block struct's data within its buffer |
| Serve.HeldAt | server.go:126-129 | the same, after any number of packets |
| Serve.CarriedTurn | server.go:130-166 | on a connection carrying packets ps, the turn at the k-th packet delivers it |
| Serve.TunnelBefore | server.go:130-166 | on a connection carrying one tunnel's packets, each turn meets the next packet or, after the last, the end of the stream, and the metadata struct keeps the tunnel's metadata from the first turn on |
| Serve.Handled | server.go:155-166 | over one tunnel's packets handleBlock has been given one block per turn after the metadata turn, all within their buffers |
| Serve.Written | server.go:93-98 | writing the handled blocks in turn never shortens the file, and writing none leaves it as it was |
| Serve.WrittenNext | server.go:93-98 | one more block turn writes that block's data at its int64 offset when the offset is not negative |
| Serve.DiskAfterBlock | server.go:93-98 | writing the next packet's block into the file holding the contents after k turns gives the contents after k + 1 turns |
| Serve.BlockWritten | server.go:146-166 | a block or EOF turn on the tunnel's open file leaves the disk holding the contents after k + 1 turns |
| Serve.TunnelStart | server.go:120-129 | serveOne starts on track: cursor at the first packet, zeroed structs, no file, registry and disk untouched |
| Serve.MetadataProgress | server.go:138-145 | the metadata turn of a tunnel whose name is new creates the entry, with only this session, and resizes the file |
| Serve.BlockProgress | server.go:146-155 | a block turn writes the block into the tunnel's file |
| Serve.EofProgress | server.go:156-166 | the EOF turn records the digest and writes the last block once more |
| Serve.ClosedProgress | server.go:131-135 | the end of the tunnel's stream finalizes the file, removes its entry and reports the digest verdict |
| Serve.TunnelTurn | server.go:130-171 | a turn over one tunnel's stream with the effects Step promises moves the session one packet on, or finalizes the file at the end |
| Serve.TunnelAdvance | server.go:130-171 | a turn after k turns on track goes on and stays on track after k + 1, or is the end of the connection and leaves the state TunnelServed describes |
| Sender.Base | client.go:148 | the file name is never empty and contains a slash only when it is "/" |
| Sender.BaseOfJoin | client.go:148 | the file name of dir/name, with or without trailing slashes, is name |
| Sender.Hasher.constructor | client.go:70 | a new hash has been fed nothing |
| Sender.Hasher.Write | client.go:140 | the bytes are appended to those hashed so far |
| Sender.Channel.constructor | client.go:69 | a new channel is empty, open and nothing has been taken |
| Sender.Channel.Send | client.go:108 | the item, nil included, is appended after every earlier one |
| Sender.Channel.Close | client.go:115 | closing keeps the items and what has been taken |
| Sender.Channel.Receive | client.go:196 | a receive takes the oldest item not yet taken, or nil from a closed, drained channel |
| Sender.SourceBlock | client.go:118-145 | block j has index j, CalcBlockSize(j) bytes, and exactly the source bytes between the starts of blocks j and j + 1 |
| Sender.PublishShape | client.go:101-116 | ReadBlocks sends one item per block in increasing index order: block j when the source holds every byte up to the end of block j, nil otherwise |
| Sender.Publish | client.go:101-116 | ReadBlocks sends exactly one item per block |
| Sender.NilThenNils | client.go:131-135 | once an item is nil every later item is nil |
| Sender.IntactSourcePublishesAll | client.go:101-116 | a source holding at least totalSize bytes yields every block |
| Sender.EmptySourcePublishesNothing | client.go:101-116 | an empty file sends no items |
| Sender.SentDataIsPrefix | client.go:140 | the hash is fed each sent block's bytes once, in index order: the source's first bytes up to the end of the last block it holds in full |
| Sender.IntactSourceHashesFile | client.go:101-116 | when the source holds the whole file, the hash is fed exactly its totalSize bytes, so the digest is the whole file's |
| Sender.TakenAt | client.go:195-200 | the t-th block a tunnel takes is the t-th item after where it started, and every item before it is a block |
| Sender.Consumed | client.go:195-200 | a tunnel consumes no item before where it starts and none past the end |
| Sender.TakenInOrder | client.go:195-201 | a tunnel takes consecutive blocks of the source, in index order |
| Sender.TakenAll | client.go:195-200 | a tunnel on a channel with no nil takes every item and drains it |
| Sender.Accumulate | client.go:206-207 | while it stays in range, the running int64 total is the sum of the sizes of the blocks sent |
| Sender.TunnelPackets | client.go:194-214 | a tunnel's packets are the metadata first, each block it took in the order taken, then one EOF packet; all can be written when each block's size fits its buffer |
| Sender.PublishSendable | client.go:201 | every block ReadBlocks sends can be written (GetData does not panic) |
| Sender.ReadBlockStep | client.go:118-145 | reading CalcBlockSize(i) bytes at the cursor succeeds exactly when the source holds block i in full, yields the item ReadBlocks is specified to send, and leaves the cursor where block i + 1 is read |
| Sender.Client.constructor | client.go:65-72 | a new client has no free blocks, no file, a fresh hash and a fresh open channel |
| Sender.Client.GetBlock | client.go:83-92 | pops the front free block, or returns a fresh block of params.blockSize zero bytes when there is none |
| Sender.Client.NewBlock | client.go:94-99 | a fresh block of n zero bytes whose size is n |
| Sender.Client.ReadBlock | client.go:118-145 | a full read yields block (i, CalcBlockSize(i), the next bytes), records i and hashes those bytes; a short read yields nil and changes only the cursor |
| Sender.Client.ReadBlocks | client.go:101-116 | the channel receives exactly Publish of the bytes from the cursor on, then is closed; the hash is fed exactly their sent bytes; the digest, its hex form and the EOF packet's digest are the hash of those bytes |
| Sender.Client.SendBlocks | client.go:102-110 | the loop sends Publish's items in order, feeds the hash their bytes, and records the last block read in full |
| Sender.Client.Turn | client.go:105-110 | one turn sends Published(i) and feeds the hash its bytes |
| Sender.Client.SendOne | client.go:106-108 | ReadBlock(i) followed by a send: the item is the block read, or nil after a short read |
| Sender.Client.OpenFile | client.go:147-162 | the file name is the last path element; on success the file, fresh metadata (name, size, block size) and a fresh EOF struct; on failure no file |
| Sender.ClientTunnel.constructor | client.go:51-56 | a new tunnel belongs to the client, with its index, no connection and a zero total |
| Sender.ClientTunnel.Run | client.go:185-216 | a failed dial writes nothing and changes nothing; otherwise the connection receives exactly TunnelPackets of the blocks taken up to the first nil or the end, and both totals grow by their sizes; the channel stays closed |
| Sender.ClientTunnel.Stream | client.go:192-214 | the metadata packet, every block taken, then the EOF packet, are written; the channel stays closed |
| Sender.ClientTunnel.Forward | client.go:195-211 | the loop writes the blocks taken up to the first nil or the drained end, in order, and adds their sizes to both totals; the channel stays closed |
| Sender.ClientTunnel.ForwardBlock | client.go:201-207 | one turn of the loop writes the block packet after everything sent before and adds its size to both totals |
| Sender.ClientTunnel.Count | client.go:206-207 | both totals grow by the block's size, wrapping in int64 |
| Transfer.Arrived | server.go:147-155 | what the receiver keeps of a block has the same index, size and data |
| Transfer.ArrivedAll | server.go:147-155 | every block a tunnel sent arrives, one for one, within its buffer |
| Transfer.DeliveredTunnel | client.go:194-214 | every packet a tunnel writes can be taken back, and they deliver the metadata, each block's data, then the EOF packet |
| Transfer.TunnelCarried | client.go:194-214 | what a tunnel writes is a metadata packet, block packets and an EOF packet, each taken back in full, filling the connection |
| Transfer.TunnelReceived | client.go:185-216 | serveOne, reading everything one tunnel wrote, takes back the metadata, each block's data in order, the EOF packet, then sees the connection end |
| Transfer.PublishedIsSourceBlock | client.go:118-145 | for a source of exactly totalSize bytes, every block is sent, and it arrives as block j of the source |
| Transfer.SentBlocks | client.go:101-116 | a single tunnel on such a source takes all the blocks, drains the channel, and block t arrives as block t of the source |
| Transfer.WrittenIsApplied | server.go:93-98 | handleBlock over arriving source blocks writes exactly what writing those blocks at their offsets gives |
| Transfer.Rebuilt | server.go:93-98 | once every block has arrived, in any order, the file equals the source |
| Transfer.HandledInOrder | server.go:156-166 | a single tunnel makes the receiver write blocks 0 to count - 1 in order, then the last block again for the EOF packet |
| Transfer.HandledBlocks | server.go:156-166 | handleBlock gets one block more than arrived: the last once more on EOF, or the allocated struct when none arrived |
| Transfer.HandledSoFar | server.go:146-155 | before the k-th turn over a tunnel's stream, handleBlock has had exactly the first k - 1 blocks that arrived |
| Transfer.TunnelHandled | server.go:146-166 | over a whole tunnel's stream handleBlock gets every block as it arrived, then the last once more |
| Transfer.EmptyFileKept | server.go:156-166 | for an empty file, the EOF re-write of the untouched block struct writes nothing |
| Transfer.TunnelRebuilds | server.go:146-166 | after all blocks and the EOF re-write the receiver's file equals the source |
| Transfer.EndToEnd | client.go:185-216 | one tunnel sends every block of an intact source; Receive predicts exactly the tunnel's packets and then the end of the connection; and writing the blocks it hands to handleBlock into a file of totalSize bytes gives the source |
| Transfer.ServeTunnel | server.go:118-172 | serveOne on the bytes one tunnel wrote for an intact source and a new name leaves the registry as before, every file it held with every field as it was, the file on disk equal to the source, and reports the digest as matching exactly when the source's MD5 is the digest sent |

## Left out

- Concurrency is left out: the producer goroutine, the tunnels running in parallel, the `sync.WaitGroup`, and the channel's capacity of 10. Every operation is an atomic step. A tunnel runs after the producer has closed the channel, and `serveOne` runs one connection to its end.
- Sender.ClientTunnel.Run: it requires a closed channel, so the case where a tunnel blocks on an open, empty channel is not modelled.
- Transfer.EndToEnd: the end-to-end statement is for a single tunnel, a source of exactly totalSize bytes, and a receiver file already resized to totalSize. With several tunnels each takes part of the blocks, and `Sink.OrderIrrelevant` with `Sink.Reassembly` says their union still rebuilds the file.
- Transfer.ServeTunnel: the whole-connection statement over the real `serveOne` loop is for one tunnel whose name is not registered yet and can be opened. Several connections on the same name are not interleaved.
- Serve.ServeOne: on any connection it states the turns taken, how the session ends, and which files the registry held are left as they were. The registry's entries and the disk are stated turn by turn by Step. Their state after the whole loop is stated only for a connection that carries one tunnel's packets for a new name.
- Serve.ServeOne: over the whole loop, "keeps every field" is equality of a file's mutable fields (metadata, handle, sessions, digest, closed), not `unchanged`; the path is a constant. Turn by turn, TakeMetadata, HandlePacket and Step state it with `unchanged`.
- Transfer.ServeTunnel: its `AllKept` is the same equality of mutable fields, not `unchanged`.
- A panic in the source (closeSession or the EOF handler on a session without a file, `make` with a negative block size) ends the whole server process, every connection included. The model ends only that session, as Crashed, and says nothing about the others.
- Sender.Client.ReadBlocks: it is stated only for a positive block size, a non-negative total size, and a `totalSize + blockSize - 1` that does not overflow. A zero block size makes the source panic on division; negative sizes and overflow are not modelled.
- Sender.Client.ReadBlock: it requires CalcBlockSize not to be -1, because `make` panics on a negative length.
- Sender.Client.GetBlock: it requires a non-negative block size when no free block exists, for the same reason.
- Packets.BlockInfo.Write: it requires the size to fit the buffer, because `GetData` panics otherwise.
- MD5 is a function parameter, not RFC 1321. Hex encoding is modelled in full.
- Network I/O: `net.Dial` is modelled as a connection or null, and a connection is the finite sequence of bytes the peer wrote. A `conn.Read` that returns no byte without an error is not modelled. `ListenTCP`, `AcceptTCP`, `ServeForever`, `Server.Run` and `Client.Run`'s fan-out are not part of this model.
- Operating system: the disk is a map from names to contents. Whether a name can be opened for writing is an oracle `creatable`. `Truncate` fails only for a negative size. `WriteAt` errors are ignored, as in the source. Closing the file is the `handleOpen` flag. `md5sum` fails only for a missing file.
- Sender.Client.OpenFile: the size `Stat` reports is taken to be the number of bytes the source holds when opened. A failing `Stat`, which makes the source crash, is not modelled.
- `CalcSpeed`, the percent and speed output, and all logging are left out because they use the clock and floating point. For the same reason `serveOne`'s local byte counter and `closeSession`'s error argument are left out; both are only printed.
- Fields the core never reads are left out. On the client: `startTime`, `completion`, `pendingBlocks`, `eof` and `tunnels`, plus the parameters `address` and `clientCount`. On the server: `params`, `listener`, `totalSize`, `lastBlockIndex`, `receivedBlocks` and `sessions`. On a session: `conn` and `lastBlockIndex`. On a file: `hasher`.
- gsdt.go (command-line parsing and dispatch) and `NewClientParams` are not part of this model.
- The block channel's items are never changed after they are sent (`ReadBlock` allocates a fresh block for every index), so the channel holds the blocks' values as they were sent.
