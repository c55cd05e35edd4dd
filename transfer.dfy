/** One file sent over one tunnel, end to end: what the tunnel writes is what
    serveOne's loop takes back, the blocks the producer publishes for a
    file of totalSize bytes are that file's blocks, and handleBlock's writes
    of them, in any order and with repetitions, rebuild the file. */
module Transfer {
  import opened Bytes
  import opened Codec
  import opened Blocks
  import opened Packets
  import opened Sender
  import opened Stream
  import opened Receiver
  import opened Serve
  import Sink

  // ------------------------------------------------------- the wire

  /** A block as the receiver's struct holds it after BlockInfo.Read: the
      sent data, and nothing of the sender's buffer beyond it. */
  function Arrived(b: BlockFields): (r: BlockFields)
    requires DataInBuffer(b)
    ensures DataInBuffer(r) && GetData(r) == GetData(b)
    ensures r.blockIndex == b.blockIndex && r.size == b.size
  {
    BlockFields(b.blockIndex, b.size, GetData(b))
  }

  /** The blocks a tunnel sent, as they arrive. */
  function ArrivedAll(sent: seq<BlockFields>): (got: seq<BlockFields>)
    requires AllInBuffer(sent)
    ensures |got| == |sent| && AllInBuffer(got)
  {
    seq(|sent|, t requires 0 <= t < |sent| => Arrived(sent[t]))
  }

  /** What serveOne's loop reports for each block a tunnel sent. */
  function GotBlocks(sent: seq<BlockFields>): (got: seq<Action>)
    requires AllInBuffer(sent)
    ensures |got| == |sent|
  {
    seq(|sent|, t requires 0 <= t < |sent| => GotBlock(Arrived(sent[t])))
  }

  /** The actions for a list of packets, one at a time. */
  lemma {:induction false} DeliveredAllAt(ps: seq<Packet>, k: nat)
    requires forall i | 0 <= i < |ps| :: WireSafe(ps[i])
    requires k < |ps|
    ensures |DeliveredAll(ps)| == |ps| && DeliveredAll(ps)[k] == Delivered(ps[k])
    decreases |ps|
  {
    if k > 0 {
      DeliveredAllAt(ps[1..], k - 1);
    } else if |ps| > 1 {
      DeliveredAllAt(ps[1..], 0);
    }
  }

  /** What the receiver gets from a tunnel's packets: the metadata, each
      block's data, the EOF. */
  lemma DeliveredTunnel(meta: MetadataFields, sent: seq<BlockFields>, eof: EofFields)
    requires AllInBuffer(sent) && |meta.name| < TwoTo16 && |eof.digest| < TwoTo16
    ensures var ps := TunnelPackets(meta, sent, eof);
      && (forall i | 0 <= i < |ps| :: Encodable(ps[i]) && WireSafe(ps[i]))
      && DeliveredAll(ps) == [GotMetadata(meta)] + GotBlocks(sent) + [GotEof(eof)]
  {
    var ps := TunnelPackets(meta, sent, eof);
    var want := [GotMetadata(meta)] + GotBlocks(sent) + [GotEof(eof)];
    assert forall i | 0 <= i < |ps| :: WireSafe(ps[i]) by {
      forall i | 0 <= i < |ps|
        ensures WireSafe(ps[i])
      {
        if 0 < i < |ps| - 1 {
          assert ps[i] == Block(sent[i - 1]);
        }
      }
    }
    DeliveredAllAt(ps, 0);
    forall k | 0 <= k < |ps|
      ensures DeliveredAll(ps)[k] == want[k]
    {
      DeliveredAllAt(ps, k);
      if 0 < k < |ps| - 1 {
        assert ps[k] == Block(sent[k - 1]);
      }
    }
  }

  /** A connection that carries exactly what ClientTunnel.Run wrote is read
      by serveOne's loop, from fresh structs, as the metadata, each block
      the tunnel sent, the EOF, and then the end of the connection. */
  lemma TunnelReceived(meta: MetadataFields, sent: seq<BlockFields>, eof: EofFields)
    requires AllInBuffer(sent) && |meta.name| < TwoTo16 && |eof.digest| < TwoTo16
    ensures var s := EncodePackets(TunnelPackets(meta, sent, eof));
      Receive(s, 0, InitialHeld()) == [GotMetadata(meta)] + GotBlocks(sent) + [GotEof(eof), ConnectionEnded]
  {
    var ps := TunnelPackets(meta, sent, eof);
    var s := EncodePackets(ps);
    DeliveredTunnel(meta, sent, eof);
    StartsWithAtSlice(s, 0, s);
    assert s[0..|s|] == s;
    ReceiveEncoded(ps, s, 0, InitialHeld());
  }

  /** What ClientTunnel.Run writes is one tunnel's stream in the sense of
      serveOne's proof: a metadata packet, block packets and an EOF packet,
      each taken back in full, carried by the connection from its start. */
  lemma TunnelCarried(meta: MetadataFields, sent: seq<BlockFields>, eof: EofFields)
    requires AllInBuffer(sent) && |meta.name| < TwoTo16 && |eof.digest| < TwoTo16
    ensures var ps := TunnelPackets(meta, sent, eof);
      TunnelShaped(ps) && Carries(EncodePackets(ps), 0, ps)
  {
    var ps := TunnelPackets(meta, sent, eof);
    var s := EncodePackets(ps);
    DeliveredTunnel(meta, sent, eof);
    forall i | 0 < i < |ps| - 1
      ensures ps[i].Block?
    {
      assert ps[i] == Block(sent[i - 1]);
    }
    StartsWithAtSlice(s, 0, s);
    assert s[0..|s|] == s;
  }

  /** Over a tunnel's stream ps carrying the blocks sent, handleBlock has
      been given, before the k-th turn, the blocks that arrived so far. */
  lemma {:induction false} HandledSoFar(ps: seq<Packet>, sent: seq<BlockFields>, k: nat)
    requires TunnelShaped(ps) && AllInBuffer(sent) && |ps| == |sent| + 2
    requires forall t | 0 <= t < |sent| :: ps[t + 1] == Block(sent[t])
    requires 1 <= k <= |sent| + 1
    ensures Handled(ps, k) == ArrivedAll(sent)[..k - 1]
    decreases k
  {
    if k > 1 {
      HandledSoFar(ps, sent, k - 1);
      assert ps[k - 1] == Block(sent[k - 2]);
      assert HeldAt(ps, InitialHeld(), k).block == Arrived(sent[k - 2]);
      assert ArrivedAll(sent)[..k - 1] == ArrivedAll(sent)[..k - 2] + [Arrived(sent[k - 2])];
    }
  }

  /** What serveOne hands to handleBlock over a whole tunnel's stream: every
      block as it arrived, then the last once more on EOF. */
  lemma TunnelHandled(meta: MetadataFields, sent: seq<BlockFields>, eof: EofFields)
    requires AllInBuffer(sent) && |meta.name| < TwoTo16 && |eof.digest| < TwoTo16
    ensures var ps := TunnelPackets(meta, sent, eof);
      TunnelShaped(ps) && Handled(ps, |ps|) == HandledBlocks(ArrivedAll(sent))
  {
    var ps := TunnelPackets(meta, sent, eof);
    var n := |sent| + 1;
    var got := ArrivedAll(sent);
    TunnelCarried(meta, sent, eof);
    HandledSoFar(ps, sent, n);
    assert got[..n - 1] == got;
    var last := HeldAt(ps, InitialHeld(), n + 1).block;
    assert Handled(ps, n + 1) == got + [last];
    assert last == HeldAt(ps, InitialHeld(), n).block;
    if sent == [] {
      assert last == InitialHeld().block;
    } else {
      assert ps[n - 1] == Block(sent[n - 2]);
      assert last == Arrived(sent[n - 2]) == got[|got| - 1];
    }
  }

  // ------------------------------------------------------- the blocks

  /** Block i of src as the receiver gets it: its index, its size and the
      bytes of src from blockSize * i on. */
  function SourceArrival(src: Bytes, totalSize: int64, blockSize: int32, i: int): (b: BlockFields)
    requires ValidSizes(totalSize, blockSize) && |src| == totalSize
    requires 0 <= i < CalcBlockCount(totalSize, blockSize)
    ensures DataInBuffer(b) && GetData(b) == b.buffer
  {
    BlockFields(i, CalcBlockSize(totalSize, blockSize, i), Sink.BlockOf(src, totalSize, blockSize, i))
  }

  /** For a file that holds exactly totalSize bytes, the producer publishes
      every block j, and it arrives as block j of the file. */
  lemma PublishedIsSourceBlock(src: Bytes, totalSize: int64, blockSize: int32, j: int)
    requires ValidSizes(totalSize, blockSize) && |src| == totalSize
    requires 0 <= j < CalcBlockCount(totalSize, blockSize)
    ensures var v := Published(src, totalSize, blockSize, j);
      v.Some? && DataInBuffer(v.value) && Arrived(v.value) == SourceArrival(src, totalSize, blockSize, j)
  {
    ReadableBlocksIff(totalSize, blockSize, |src|, j);
    BlockBounds(totalSize, blockSize, j);
    MulMonotonic(blockSize, 0, j);
  }

  /** The blocks a tunnel sends for a file that holds exactly totalSize
      bytes: it drains the channel, and its t-th block arrives as block t. */
  lemma SentBlocks(src: Bytes, totalSize: int64, blockSize: int32)
    requires ValidSizes(totalSize, blockSize) && |src| == totalSize
    ensures var vs := Publish(src, totalSize, blockSize);
      var sent := Taken(vs, 0);
      && |sent| == CalcBlockCount(totalSize, blockSize)
      && Consumed(vs, 0) == |vs|
      && AllInBuffer(sent)
      && forall t | 0 <= t < |sent| :: Arrived(sent[t]) == SourceArrival(src, totalSize, blockSize, t)
  {
    var count := CalcBlockCount(totalSize, blockSize);
    var vs := Publish(src, totalSize, blockSize);
    forall j | 0 <= j < |vs|
      ensures vs[j].Some? && DataInBuffer(vs[j].value)
      ensures Arrived(vs[j].value) == SourceArrival(src, totalSize, blockSize, j)
    {
      PublishFromAt(src, totalSize, blockSize, count as nat, j);
      PublishedIsSourceBlock(src, totalSize, blockSize, j);
    }
    TakenAll(vs, 0);
  }

  // ------------------------------------------------------- the file

  /** The blocks of src named by `order`, as they arrive. */
  function Arrivals(src: Bytes, totalSize: int64, blockSize: int32, order: seq<int>): (got: seq<BlockFields>)
    requires ValidSizes(totalSize, blockSize) && |src| == totalSize
    requires Sink.IndicesInRange(totalSize, blockSize, order)
    ensures |got| == |order| && AllInBuffer(got)
  {
    seq(|order|, t requires 0 <= t < |order| => SourceArrival(src, totalSize, blockSize, order[t]))
  }

  /** Handling the arrived blocks of src in some order writes each at its
      offset, as Sink.ApplyBlocks does: the int64 offset never wraps. */
  lemma {:induction false} WrittenIsApplied(content: Bytes, src: Bytes, totalSize: int64, blockSize: int32, order: seq<int>)
    requires ValidSizes(totalSize, blockSize) && |src| == totalSize
    requires Sink.IndicesInRange(totalSize, blockSize, order)
    ensures Written(content, blockSize, Arrivals(src, totalSize, blockSize, order))
         == Sink.ApplyBlocks(content, src, totalSize, blockSize, order)
    decreases |order|
  {
    if order != [] {
      var got := Arrivals(src, totalSize, blockSize, order);
      var init := order[..|order| - 1];
      var i := order[|order| - 1];
      assert got[..|got| - 1] == Arrivals(src, totalSize, blockSize, init);
      WrittenIsApplied(content, src, totalSize, blockSize, init);
      var before := Written(content, blockSize, got[..|got| - 1]);
      var last := got[|got| - 1];
      assert last == SourceArrival(src, totalSize, blockSize, i);
      BlockBounds(totalSize, blockSize, i);
      MulMonotonic(blockSize, 0, i);
      var offset := blockSize * i;
      assert 0 <= offset < TwoTo63;
      assert ToInt64(blockSize * last.blockIndex) == offset;
      assert Written(content, blockSize, got) == Sink.WriteAt(before, offset, Sink.BlockOf(src, totalSize, blockSize, i));
    }
  }

  /** However the blocks of src arrive, in any order, split over any
      connections and some of them more than once, once every block has been
      handled the receiver's file, resized to totalSize, is src. */
  lemma Rebuilt(content: Bytes, src: Bytes, totalSize: int64, blockSize: int32, order: seq<int>)
    requires ValidSizes(totalSize, blockSize) && |src| == totalSize && |content| == totalSize
    requires Sink.IndicesInRange(totalSize, blockSize, order)
    requires forall i | 0 <= i < CalcBlockCount(totalSize, blockSize) :: i in order
    ensures Written(content, blockSize, Arrivals(src, totalSize, blockSize, order)) == src
  {
    WrittenIsApplied(content, src, totalSize, blockSize, order);
    Sink.Reassembly(content, src, totalSize, blockSize, order);
  }

  /** The blocks serveOne hands to handleBlock on a connection that carries
      the blocks `got`: each in turn, then once more the last of them when
      the EOF packet arrives (the struct as allocated, whose data is empty,
      when there was none). */
  function HandledBlocks(got: seq<BlockFields>): (handled: seq<BlockFields>)
    requires AllInBuffer(got)
    ensures |handled| == |got| + 1 && AllInBuffer(handled)
  {
    got + [if got == [] then InitialHeld().block else got[|got| - 1]]
  }

  /** The blocks handleBlock gets from one tunnel that carries a file of
      totalSize bytes, in at least one block: every block in index order,
      then the last once more. */
  lemma HandledInOrder(src: Bytes, totalSize: int64, blockSize: int32)
    requires ValidSizes(totalSize, blockSize) && |src| == totalSize
    requires 0 < CalcBlockCount(totalSize, blockSize)
    ensures var count := CalcBlockCount(totalSize, blockSize);
      var order := seq(count as nat, t => t) + [count - 1];
      var sent := Taken(Publish(src, totalSize, blockSize), 0);
      && Sink.IndicesInRange(totalSize, blockSize, order)
      && AllInBuffer(sent)
      && HandledBlocks(ArrivedAll(sent)) == Arrivals(src, totalSize, blockSize, order)
  {
    SentBlocks(src, totalSize, blockSize);
  }

  /** Every block index is in the handling order of one tunnel. */
  lemma OrderCovers(count: int)
    requires 0 < count
    ensures var order := seq(count, t => t) + [count - 1];
      forall i | 0 <= i < count :: i in order
  {
    var order := seq(count, t => t) + [count - 1];
    forall i | 0 <= i < count
      ensures i in order
    {
      assert order[i] == i;
    }
  }

  /** An empty file is sent as no blocks; handleBlock, given the empty block
      it allocated on EOF, leaves the empty file as it is. */
  lemma EmptyFileKept(src: Bytes, totalSize: int64, blockSize: int32, content: Bytes)
    requires ValidSizes(totalSize, blockSize) && |src| == totalSize && |content| == totalSize
    requires CalcBlockCount(totalSize, blockSize) == 0
    ensures var sent := Taken(Publish(src, totalSize, blockSize), 0);
      AllInBuffer(sent) && Written(content, blockSize, HandledBlocks(ArrivedAll(sent))) == src
  {
    BlockCountIsCeil(totalSize, blockSize);
    assert Publish(src, totalSize, blockSize) == [];
    var handled := HandledBlocks(ArrivedAll(Taken(Publish(src, totalSize, blockSize), 0)));
    assert handled == [InitialHeld().block] && handled[..0] == [];
  }

  /** The blocks one tunnel carries for a file of totalSize bytes, handled
      in the order they arrive and the last once more on EOF, turn the
      receiver's file, resized to totalSize, into the source. */
  lemma TunnelRebuilds(src: Bytes, totalSize: int64, blockSize: int32, content: Bytes)
    requires ValidSizes(totalSize, blockSize) && |src| == totalSize && |content| == totalSize
    ensures var sent := Taken(Publish(src, totalSize, blockSize), 0);
      AllInBuffer(sent) && Written(content, blockSize, HandledBlocks(ArrivedAll(sent))) == src
  {
    var count := CalcBlockCount(totalSize, blockSize);
    if count == 0 {
      EmptyFileKept(src, totalSize, blockSize, content);
    } else {
      var order := seq(count as nat, t => t) + [count - 1];
      HandledInOrder(src, totalSize, blockSize);
      OrderCovers(count as int);
      Rebuilt(content, src, totalSize, blockSize, order);
    }
  }

  /** A file of totalSize bytes sent by one client over one tunnel: the
      tunnel drains the channel, the receiver reads its connection as the
      metadata, every block in index order, the EOF and the end, and the
      file it resized to totalSize holds the source once handleBlock has
      had every block and the repeat on EOF. */
  lemma EndToEnd(src: Bytes, meta: MetadataFields, eof: EofFields, content: Bytes)
    requires ValidSizes(meta.totalSize, meta.blockSize) && |src| == meta.totalSize
    requires |meta.name| < TwoTo16 && |eof.digest| < TwoTo16
    requires |content| == meta.totalSize
    ensures var ts, bs := meta.totalSize, meta.blockSize;
      var vs := Publish(src, ts, bs);
      var sent := Taken(vs, 0);
      && AllInBuffer(sent) && Consumed(vs, 0) == |vs|
      && Receive(EncodePackets(TunnelPackets(meta, sent, eof)), 0, InitialHeld())
         == [GotMetadata(meta)] + GotBlocks(sent) + [GotEof(eof), ConnectionEnded]
      && Written(content, bs, HandledBlocks(ArrivedAll(sent))) == src
  {
    var ts, bs := meta.totalSize, meta.blockSize;
    SentBlocks(src, ts, bs);
    TunnelReceived(meta, Taken(Publish(src, ts, bs), 0), eof);
    TunnelRebuilds(src, ts, bs, content);
  }

  // ------------------------------------------------------- the server

  /** serveOne on a connection that carries exactly what one client tunnel
      wrote for a source file of totalSize bytes, under a name the registry
      does not hold yet and the server can create: the session ends by
      finalizing the file, with a verdict that holds exactly when the EOF's
      digest is the MD5 of the source; the registry is as before; every file
      it held keeps every field it had (`AllKept`); and the server's disk
      holds the source under that name. */
  method ServeTunnel(server: Server, src: Bytes, meta: MetadataFields, eof: EofFields) returns (end: SessionEnd)
    requires ValidSizes(meta.totalSize, meta.blockSize) && |src| == meta.totalSize
    requires |meta.name| < TwoTo16 && |eof.digest| < TwoTo16
    requires meta.name !in server.files && server.creatable(meta.name)
    modifies server, server.files.Values
    ensures server.files == old(server.files)
    ensures server.disk == old(server.disk)[meta.name := src]
    ensures end == Detached(Finalized(server.md5(src) == eof.digest))
    ensures AllKept(old(server.files))
  {
    var ts, bs := meta.totalSize, meta.blockSize;
    SentBlocks(src, ts, bs);
    var sent := Taken(Publish(src, ts, bs), 0);
    var conn := new Reader(EncodePackets(TunnelPackets(meta, sent, eof)));
    ghost var ps := TunnelPackets(meta, sent, eof);
    TunnelCarried(meta, sent, eof);
    TunnelHandled(meta, sent, eof);
    TunnelRebuilds(src, ts, bs, Sink.Truncate(Content(server.disk, meta.name), ts));
    ghost var actions, attached;
    end, actions, attached := ServeOne(server, conn, ps);
    DigestMatchesIff(server.disk, server.md5, meta.name, eof.digest);
  }
}
