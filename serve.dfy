/** serveOne: the receiver's loop over one connection. It reads a packet
    type byte, decodes the packet into one of three structs it reuses for the
    whole connection, and hands it to the session's handler. The pure
    functions `Dispatch` and `Receive` say what the loop reads; `Step` and
    `ServeOne` are the loop itself, proved against them and against the
    handlers' effects. */
module Serve {
  import opened Bytes
  import opened Stream
  import opened Codec
  import opened Packets
  import opened Receiver
  import Sink

  /** The size of the buffer serveOne's block struct starts with. */
  const ReceiveBufferSize: nat := 512 * 1024

  /** The fields of the three structs serveOne reuses. */
  datatype Held = Held(meta: MetadataFields, block: BlockFields, eof: EofFields)

  /** The structs as serveOne allocates them. */
  function InitialHeld(): Held
  {
    Held(MetadataFields([], 0, 0), BlockFields(0, 0, Zeros(ReceiveBufferSize)), EofFields([]))
  }

  /** What one turn of the loop read. */
  datatype Action =
    | ConnectionEnded                      // the type byte could not be read
    | GotMetadata(meta: MetadataFields)
    | GotBlock(block: BlockFields)
    | GotEof(eof: EofFields)
    | DecodeFailed(packetType: byte)       // a block or EOF packet failed to decode
    | BlockSizeNegative                    // BlockInfo.Read panicked
    | UnknownPacket(packetType: byte)

  /** The turns after which the loop does not go on. */
  predicate Terminal(a: Action)
  {
    !(a.GotMetadata? || a.GotBlock? || a.GotEof?)
  }

  datatype Stepped = Stepped(action: Action, pos: nat, held: Held)

  /** A metadata packet whose type byte ends at pos. FileMetadata.Read never
      fails, so a metadata packet is always handled. */
  function MetadataTurn(s: Bytes, pos: nat, held: Held): (st: Stepped)
    requires pos <= |s|
    ensures pos <= st.pos <= |s| && st.action.GotMetadata?
  {
    var d := DecodeMetadata(s, pos, held.meta);
    Stepped(GotMetadata(d.fields), d.pos, held.(meta := d.fields))
  }

  /** A block packet whose type byte ends at pos: handled when it decodes,
      otherwise the loop stops. */
  function BlockTurn(s: Bytes, pos: nat, held: Held): (st: Stepped)
    requires pos <= |s|
    ensures pos <= st.pos <= |s|
    ensures st.action.GotBlock? || st.action == BlockSizeNegative || st.action == DecodeFailed(BlockPacket)
  {
    var d := DecodeBlock(s, pos, held.block);
    var action :=
      if d.status == Ok then GotBlock(d.fields)
      else if d.status == NegativeLength then BlockSizeNegative
      else DecodeFailed(BlockPacket);
    Stepped(action, d.pos, held.(block := d.fields))
  }

  /** An EOF packet whose type byte ends at pos. */
  function EofTurn(s: Bytes, pos: nat, held: Held): (st: Stepped)
    requires pos <= |s|
    ensures pos <= st.pos <= |s|
    ensures st.action.GotEof? || st.action == DecodeFailed(FileEofPacket)
  {
    var d := DecodeEof(s, pos, held.eof);
    Stepped(if d.status == Ok then GotEof(d.fields) else DecodeFailed(FileEofPacket), d.pos, held.(eof := d.fields))
  }

  /** The packet part of a turn: the type byte t has been read and the
      packet it announces starts at pos. */
  function PacketTurn(t: byte, s: Bytes, pos: nat, held: Held): (st: Stepped)
    requires pos <= |s|
    ensures pos <= st.pos <= |s|
  {
    if t == FileMetadataPacket then MetadataTurn(s, pos, held)
    else if t == BlockPacket then BlockTurn(s, pos, held)
    else if t == FileEofPacket then EofTurn(s, pos, held)
    else Stepped(UnknownPacket(t), pos, held)
  }

  /** One turn of serveOne's loop at cursor pos: read the type byte, then
      the packet it announces. */
  function Dispatch(s: Bytes, pos: nat, held: Held): (st: Stepped)
    requires pos <= |s|
    ensures pos <= st.pos <= |s|
    ensures !Terminal(st.action) ==> pos < st.pos
  {
    if pos == |s| then Stepped(ConnectionEnded, pos, held)
    else PacketTurn(s[pos], s, pos + 1, held)
  }

  /** Every turn of the loop over the stream from pos on, up to and
      including the one that ends it: the connection ends where no type
      byte can be read. */
  function Receive(s: Bytes, pos: nat, held: Held): (actions: seq<Action>)
    requires pos <= |s|
    ensures |actions| >= 1 && Terminal(actions[|actions| - 1])
    ensures forall j | 0 <= j < |actions| - 1 :: !Terminal(actions[j])
    decreases |s| - pos, 1
  {
    if pos == |s| then [ConnectionEnded] else ReceivePacket(s, pos, held)
  }

  /** The turns from a type byte at pos on. */
  function ReceivePacket(s: Bytes, pos: nat, held: Held): (actions: seq<Action>)
    requires pos < |s|
    ensures |actions| >= 1 && Terminal(actions[|actions| - 1])
    ensures forall j | 0 <= j < |actions| - 1 :: !Terminal(actions[j])
    decreases |s| - pos, 0
  {
    var st := PacketTurn(s[pos], s, pos + 1, held);
    if Terminal(st.action) then [st.action]
    else [st.action] + Receive(s, st.pos, st.held)
  }

  /** Receive, one turn at a time. */
  lemma ReceiveTurn(s: Bytes, pos: nat, held: Held)
    requires pos <= |s|
    ensures var st := Dispatch(s, pos, held);
      Receive(s, pos, held) == [st.action] + if Terminal(st.action) then [] else Receive(s, st.pos, st.held)
  {
  }

  /** Taking the next element off what remains. */
  lemma TakeNext<T>(done: seq<T>, x: T, rest: seq<T>, whole: seq<T>)
    requires done + ([x] + rest) == whole
    ensures done + [x] <= whole && done + [x] + rest == whole
  {
    assert done + [x] + rest == done + ([x] + rest);
  }

  /** The turns done so far, followed by what `Receive` predicts from pos,
      are the turns `whole`; kept behind `Tick` so that serveOne's loop
      carries it from turn to turn without unfolding it. */
  ghost predicate Replays(done: seq<Action>, s: Bytes, pos: nat, held: Held, whole: seq<Action>)
    requires pos <= |s|
  {
    forall u {:trigger Tick(u)} | Tick(u) :: done + Receive(s, pos, held) == whole
  }

  /** A turn that does what `Dispatch` predicts takes the next of the
      turns `whole`, and it is the last of them exactly when it is terminal. */
  lemma ReplayTurn(done: seq<Action>, s: Bytes, pos: nat, held: Held, whole: seq<Action>, action: Action, pos': nat, held': Held)
    requires pos <= |s| && Replays(done, s, pos, held, whole)
    requires Stepped(action, pos', held') == Dispatch(s, pos, held)
    ensures done + [action] <= whole
    ensures done + [action] == whole <==> Terminal(action)
    ensures !Terminal(action) ==> Replays(done + [action], s, pos', held', whole)
  {
    assert Tick(0);
    ReceiveTurn(s, pos, held);
    var rest := if Terminal(action) then [] else Receive(s, pos', held');
    TakeNext(done, action, rest, whole);
    if !Terminal(action) {
      assert |done + [action]| < |whole|;
      assert Tick(0);
    }
  }

  // ------------------------------------------------------ the packet stream

  /** A packet the receiver can take back in full: the name and the digest
      have lengths that fit in their 16-bit length fields. */
  predicate WireSafe(p: Packet)
  {
    && Encodable(p)
    && (p.Metadata? ==> |p.meta.name| < TwoTo16)
    && (p.Eof? ==> |p.eof.digest| < TwoTo16)
  }

  /** What the receiver gets from a packet: a block carries only its data. */
  function Delivered(p: Packet): (a: Action)
    requires WireSafe(p)
    ensures !Terminal(a)
  {
    match p
    case Metadata(m) => GotMetadata(m)
    case Block(b) => GotBlock(BlockFields(b.blockIndex, b.size, GetData(b)))
    case Eof(e) => GotEof(e)
  }

  function DeliveredAll(ps: seq<Packet>): seq<Action>
    requires forall i | 0 <= i < |ps| :: WireSafe(ps[i])
  {
    if ps == [] then [] else [Delivered(ps[0])] + DeliveredAll(ps[1..])
  }

  /** A stream that starts with a type byte followed by rest. */
  lemma TypeByteAt(s: Bytes, pos: nat, t: byte, rest: Bytes)
    requires StartsWithAt(s, pos, [t] + rest)
    ensures pos < |s| && s[pos] == t && StartsWithAt(s, pos + 1, rest)
  {
    ReadPrefix(s, pos, [t], rest);
    assert s[pos..pos + 1][0] == t;
  }

  /** The structs after the loop decoded p in full. */
  function HeldAfter(held: Held, p: Packet): (h: Held)
    requires WireSafe(p)
    ensures DataInBuffer(held.block) ==> DataInBuffer(h.block)
  {
    match p
    case Metadata(m) => held.(meta := m)
    case Block(b) => held.(block := BlockFields(b.blockIndex, b.size, GetData(b)))
    case Eof(e) => held.(eof := e)
  }

  /** One turn of the loop over what WritePacket wrote takes back that
      packet and stops right after it, whatever the structs held before. */
  lemma DispatchEncoded(p: Packet, s: Bytes, pos: nat, held: Held)
    requires WireSafe(p) && StartsWithAt(s, pos, EncodePacket(p))
    ensures pos + WireSize(p) <= |s|
    ensures Dispatch(s, pos, held) == Stepped(Delivered(p), pos + WireSize(p), HeldAfter(held, p))
  {
    match p
    case Metadata(_) => DispatchEncodedMetadata(p, s, pos, held);
    case Block(_) => DispatchEncodedBlock(p, s, pos, held);
    case Eof(_) => DispatchEncodedEof(p, s, pos, held);
  }

  lemma DispatchEncodedMetadata(p: Packet, s: Bytes, pos: nat, held: Held)
    requires p.Metadata? && WireSafe(p) && StartsWithAt(s, pos, EncodePacket(p))
    ensures pos + WireSize(p) <= |s|
    ensures Dispatch(s, pos, held) == Stepped(Delivered(p), pos + WireSize(p), HeldAfter(held, p))
  {
    PacketBytes(p);
    TypeByteAt(s, pos, PacketType(p), EncodeBody(p));
    MetadataRoundTrip(p.meta, s, pos + 1, held.meta);
  }

  lemma DispatchEncodedBlock(p: Packet, s: Bytes, pos: nat, held: Held)
    requires p.Block? && WireSafe(p) && StartsWithAt(s, pos, EncodePacket(p))
    ensures pos + WireSize(p) <= |s|
    ensures Dispatch(s, pos, held) == Stepped(Delivered(p), pos + WireSize(p), HeldAfter(held, p))
  {
    PacketBytes(p);
    TypeByteAt(s, pos, PacketType(p), EncodeBody(p));
    BlockRoundTrip(p.block, s, pos + 1, held.block);
  }

  lemma DispatchEncodedEof(p: Packet, s: Bytes, pos: nat, held: Held)
    requires p.Eof? && WireSafe(p) && StartsWithAt(s, pos, EncodePacket(p))
    ensures pos + WireSize(p) <= |s|
    ensures Dispatch(s, pos, held) == Stepped(Delivered(p), pos + WireSize(p), HeldAfter(held, p))
  {
    PacketBytes(p);
    TypeByteAt(s, pos, PacketType(p), EncodeBody(p));
    EofRoundTrip(p.eof, s, pos + 1, held.eof);
  }

  /** The structs before the loop reads the k-th of the packets ps. */
  function HeldAt(ps: seq<Packet>, held: Held, k: nat): (h: Held)
    requires k <= |ps| && forall i | 0 <= i < |ps| :: WireSafe(ps[i])
    ensures DataInBuffer(held.block) ==> DataInBuffer(h.block)
  {
    if k == 0 then held else HeldAfter(HeldAt(ps, held, k - 1), ps[k - 1])
  }

  /** The byte strings es, one after the other. */
  function Concat(es: seq<Bytes>): Bytes
  {
    if es == [] then [] else es[0] + Concat(es[1..])
  }

  /** Where the k-th of the byte strings es starts in Concat(es) placed at
      pos. */
  function Start(es: seq<Bytes>, pos: nat, k: nat): nat
    requires k <= |es|
  {
    if k == 0 then pos else Start(es, pos, k - 1) + |es[k - 1]|
  }

  /** A stream that holds Concat(es) at pos holds each of the strings from
      the k-th on where it starts, and the last ends with Concat(es). */
  lemma {:induction false} ConcatFrom(s: Bytes, es: seq<Bytes>, pos: nat, k: nat)
    requires StartsWithAt(s, pos, Concat(es)) && k <= |es|
    ensures StartsWithAt(s, Start(es, pos, k), Concat(es[k..]))
    ensures Start(es, pos, k) + |Concat(es[k..])| == pos + |Concat(es)|
    decreases k
  {
    if k == 0 {
      assert es[0..] == es;
    } else {
      ConcatFrom(s, es, pos, k - 1);
      ConcatHead(es, k - 1);
      SplitStart(s, Start(es, pos, k - 1), es[k - 1], Concat(es[k..]));
    }
  }

  lemma ConcatHead(es: seq<Bytes>, k: nat)
    requires k < |es|
    ensures Concat(es[k..]) == es[k] + Concat(es[k + 1..])
  {
    var from := es[k..];
    assert from[0] == es[k] && from[1..] == es[k + 1..];
  }

  /** f applied to each of xs. */
  function Map<A, B>(f: A --> B, xs: seq<A>): (ys: seq<B>)
    requires forall i | 0 <= i < |xs| :: f.requires(xs[i])
    ensures |ys| == |xs|
  {
    if xs == [] then [] else [f(xs[0])] + Map(f, xs[1..])
  }

  lemma {:induction false} MapAt<A, B>(f: A --> B, xs: seq<A>, k: nat)
    requires forall i | 0 <= i < |xs| :: f.requires(xs[i])
    requires k < |xs|
    ensures Map(f, xs)[k] == f(xs[k])
    decreases k
  {
    if k > 0 {
      MapAt(f, xs[1..], k - 1);
    }
  }

  /** The encodings of the packets ps, one per packet. */
  function Encodings(ps: seq<Packet>): (es: seq<Bytes>)
    requires forall i | 0 <= i < |ps| :: Encodable(ps[i])
    ensures |es| == |ps|
  {
    Map(EncodePacket, ps)
  }

  /** EncodePackets writes the encodings one after the other. */
  lemma {:induction false} EncodingsConcat(ps: seq<Packet>)
    requires forall i | 0 <= i < |ps| :: Encodable(ps[i])
    ensures EncodePackets(ps) == Concat(Encodings(ps))
    decreases |ps|
  {
    if ps != [] {
      EncodingsConcat(ps[1..]);
      assert Encodings(ps)[1..] == Encodings(ps[1..]);
    }
  }

  /** Where the k-th of the packets ps starts when the first starts at pos. */
  function Offset(ps: seq<Packet>, pos: nat, k: nat): nat
    requires k <= |ps| && forall i | 0 <= i < |ps| :: WireSafe(ps[i])
  {
    assert forall i | 0 <= i < |ps| :: WireSafe(ps[i]) && Encodable(ps[i]);
    Start(Encodings(ps), pos, k)
  }

  /** A stream holding the encodings of ps at pos holds the k-th packet's
      encoding where that packet starts, and ends the last at the end of
      EncodePackets(ps). */
  lemma PacketAt(ps: seq<Packet>, s: Bytes, pos: nat, k: nat)
    requires forall i | 0 <= i < |ps| :: Encodable(ps[i]) && WireSafe(ps[i])
    requires StartsWithAt(s, pos, EncodePackets(ps)) && k < |ps|
    ensures StartsWithAt(s, Offset(ps, pos, k), EncodePacket(ps[k]))
  {
    var es := Encodings(ps);
    EncodingsConcat(ps);
    ConcatFrom(s, es, pos, k);
    ConcatHead(es, k);
    SplitStart(s, Start(es, pos, k), es[k], Concat(es[k + 1..]));
    MapAt(EncodePacket, ps, k);
  }

  /** The packets ps end where their encodings do. */
  lemma OffsetEnd(ps: seq<Packet>, s: Bytes, pos: nat)
    requires forall i | 0 <= i < |ps| :: Encodable(ps[i]) && WireSafe(ps[i])
    requires StartsWithAt(s, pos, EncodePackets(ps))
    ensures Offset(ps, pos, |ps|) == pos + |EncodePackets(ps)|
  {
    var es := Encodings(ps);
    EncodingsConcat(ps);
    ConcatFrom(s, es, pos, |ps|);
    assert es[|ps|..] == [];
  }

  /** The turn at the k-th of the packets ps delivers it and moves to the
      next one. */
  ghost predicate DeliversTurn(s: Bytes, ps: seq<Packet>, pos: nat, held: Held, k: nat)
    requires k < |ps| && forall i | 0 <= i < |ps| :: WireSafe(ps[i])
  {
    && Offset(ps, pos, k) <= |s|
    && Offset(ps, pos, k + 1) <= |s|
    && Dispatch(s, Offset(ps, pos, k), HeldAt(ps, held, k))
      == Stepped(Delivered(ps[k]), Offset(ps, pos, k + 1), HeldAt(ps, held, k + 1))
  }

  /** Over the encoding of the k-th of the packets ps, the turn there
      delivers it. */
  lemma DeliversAt(ps: seq<Packet>, s: Bytes, pos: nat, held: Held, k: nat)
    requires forall i | 0 <= i < |ps| :: WireSafe(ps[i])
    requires k < |ps| && StartsWithAt(s, Offset(ps, pos, k), EncodePacket(ps[k]))
    ensures DeliversTurn(s, ps, pos, held, k)
  {
    DispatchEncoded(ps[k], s, Offset(ps, pos, k), HeldAt(ps, held, k));
    OffsetNext(ps, pos, k);
  }

  /** The packet after the k-th starts where the k-th ends. */
  lemma OffsetNext(ps: seq<Packet>, pos: nat, k: nat)
    requires forall i | 0 <= i < |ps| :: WireSafe(ps[i])
    requires k < |ps|
    ensures Offset(ps, pos, k + 1) == Offset(ps, pos, k) + WireSize(ps[k])
  {
    assert forall i | 0 <= i < |ps| :: WireSafe(ps[i]) && Encodable(ps[i]);
    MapAt(EncodePacket, ps, k);
  }

  /** The turn at the j-th of the cursors poss, with the structs helds[j],
      delivers the j-th packet and leaves the rest to the next cursor. */
  ghost predicate Link(s: Bytes, ps: seq<Packet>, poss: seq<nat>, helds: seq<Held>, j: nat)
    requires j < |ps| && |poss| == |helds| == |ps| + 1 && forall i | 0 <= i < |ps| :: WireSafe(ps[i])
  {
    && poss[j] <= |s| && poss[j + 1] <= |s|
    && Receive(s, poss[j], helds[j]) == [Delivered(ps[j])] + Receive(s, poss[j + 1], helds[j + 1])
  }

  /** From the k-th cursor on, turns that each deliver the next packet, up
      to a last cursor at the end of the stream, receive those packets and
      then the end of the connection. */
  lemma {:induction false} ReceiveChain(s: Bytes, ps: seq<Packet>, poss: seq<nat>, helds: seq<Held>, k: nat)
    requires forall i | 0 <= i < |ps| :: WireSafe(ps[i])
    requires |poss| == |helds| == |ps| + 1 && k <= |ps| && poss[|ps|] == |s|
    requires forall j | k <= j < |ps| :: Link(s, ps, poss, helds, j)
    ensures poss[k] <= |s|
    ensures Receive(s, poss[k], helds[k]) == DeliveredAll(ps[k..]) + [ConnectionEnded]
    decreases |ps| - k
  {
    if k < |ps| {
      assert Link(s, ps, poss, helds, k);
      ReceiveChain(s, ps, poss, helds, k + 1);
      DeliveredFrom(ps, k);
      Regroup([Delivered(ps[k])], DeliveredAll(ps[k + 1..]), [ConnectionEnded]);
    }
  }

  /** A turn that delivers p puts it in front of the turns after it. */
  lemma ReceiveDelivered(s: Bytes, pos: nat, held: Held, p: Packet, next: nat, nextHeld: Held)
    requires pos <= |s| && next <= |s| && WireSafe(p)
    requires Dispatch(s, pos, held) == Stepped(Delivered(p), next, nextHeld)
    ensures Receive(s, pos, held) == [Delivered(p)] + Receive(s, next, nextHeld)
  {
    ReceiveTurn(s, pos, held);
  }

  lemma DeliveredFrom(ps: seq<Packet>, k: nat)
    requires forall i | 0 <= i < |ps| :: WireSafe(ps[i])
    requires k < |ps|
    ensures DeliveredAll(ps[k..]) == [Delivered(ps[k])] + DeliveredAll(ps[k + 1..])
  {
    var from := ps[k..];
    assert from[0] == ps[k] && from[1..] == ps[k + 1..];
  }

  /** A turn that delivers the j-th packet links its cursor to the next. */
  lemma LinkAt(ps: seq<Packet>, s: Bytes, pos: nat, held: Held, poss: seq<nat>, helds: seq<Held>, j: nat)
    requires forall i | 0 <= i < |ps| :: WireSafe(ps[i])
    requires j < |ps| && DeliversTurn(s, ps, pos, held, j)
    requires |poss| == |helds| == |ps| + 1
    requires poss[j] == Offset(ps, pos, j) && poss[j + 1] == Offset(ps, pos, j + 1)
    requires helds[j] == HeldAt(ps, held, j) && helds[j + 1] == HeldAt(ps, held, j + 1)
    ensures Link(s, ps, poss, helds, j)
  {
    ReceiveDelivered(s, poss[j], helds[j], ps[j], poss[j + 1], helds[j + 1]);
  }

  /** A stream on which every turn delivers the next of the packets ps, and
      which ends after the last, is received as those packets, then the end
      of the connection. */
  lemma ReceiveDelivering(ps: seq<Packet>, s: Bytes, pos: nat, held: Held)
    requires forall i | 0 <= i < |ps| :: WireSafe(ps[i])
    requires pos <= |s| && Offset(ps, pos, |ps|) == |s|
    requires forall j | 0 <= j < |ps| :: DeliversTurn(s, ps, pos, held, j)
    ensures Receive(s, pos, held) == DeliveredAll(ps) + [ConnectionEnded]
  {
    var poss := seq(|ps| + 1, j requires 0 <= j <= |ps| => Offset(ps, pos, j));
    var helds := seq(|ps| + 1, j requires 0 <= j <= |ps| => HeldAt(ps, held, j));
    forall j | 0 <= j < |ps|
      ensures Link(s, ps, poss, helds, j)
    {
      LinkAt(ps, s, pos, held, poss, helds, j);
    }
    ReceiveChain(s, ps, poss, helds, 0);
    assert ps[0..] == ps;
  }

  /** On a connection carrying exactly the packets ps, the loop takes back
      every packet in order and then sees the connection end. */
  lemma ReceiveEncoded(ps: seq<Packet>, s: Bytes, pos: nat, held: Held)
    requires forall i | 0 <= i < |ps| :: Encodable(ps[i]) && WireSafe(ps[i])
    requires StartsWithAt(s, pos, EncodePackets(ps)) && |s| == pos + |EncodePackets(ps)|
    ensures Receive(s, pos, held) == DeliveredAll(ps) + [ConnectionEnded]
  {
    OffsetEnd(ps, s, pos);
    forall j | 0 <= j < |ps|
      ensures DeliversTurn(s, ps, pos, held, j)
    {
      PacketAt(ps, s, pos, j);
      DeliversAt(ps, s, pos, held, j);
    }
    ReceiveDelivering(ps, s, pos, held);
  }

  // ------------------------------------------------------ one tunnel's stream

  /** The packets one tunnel writes on its connection: a metadata packet,
      block packets, then an EOF packet, each of which the receiver can take
      back in full. */
  predicate TunnelShaped(ps: seq<Packet>)
  {
    && |ps| >= 2 && ps[0].Metadata? && ps[|ps| - 1].Eof?
    && (forall i | 0 < i < |ps| - 1 :: ps[i].Block?)
    && (forall i | 0 <= i < |ps| :: WireSafe(ps[i]))
  }

  /** A connection that, from pos on, carries exactly the packets ps. */
  predicate Carries(s: Bytes, pos: nat, ps: seq<Packet>)
    requires forall i | 0 <= i < |ps| :: WireSafe(ps[i])
  {
    assert forall i | 0 <= i < |ps| :: WireSafe(ps[i]) && Encodable(ps[i]);
    StartsWithAt(s, pos, EncodePackets(ps)) && |s| == pos + |EncodePackets(ps)|
  }

  /** On a connection carrying ps, the turn at the k-th packet delivers it. */
  lemma CarriedTurn(ps: seq<Packet>, s: Bytes, pos: nat, k: nat)
    requires forall i | 0 <= i < |ps| :: WireSafe(ps[i])
    requires Carries(s, pos, ps) && k < |ps|
    ensures DeliversTurn(s, ps, pos, InitialHeld(), k)
  {
    assert forall i | 0 <= i < |ps| :: Encodable(ps[i]);
    PacketAt(ps, s, pos, k);
    DeliversAt(ps, s, pos, InitialHeld(), k);
  }

  /** On a connection carrying ps, the stream ends after the last packet. */
  lemma CarriedEnd(ps: seq<Packet>, s: Bytes, pos: nat)
    requires forall i | 0 <= i < |ps| :: WireSafe(ps[i])
    requires Carries(s, pos, ps)
    ensures Offset(ps, pos, |ps|) == |s|
  {
    assert forall i | 0 <= i < |ps| :: Encodable(ps[i]);
    OffsetEnd(ps, s, pos);
  }

  /** Once the metadata packet of one tunnel's stream is read, the metadata
      struct keeps it: no other metadata packet follows. */
  lemma {:induction false} HeldMeta(ps: seq<Packet>, k: nat)
    requires TunnelShaped(ps) && 1 <= k <= |ps|
    ensures HeldAt(ps, InitialHeld(), k).meta == ps[0].meta
    decreases k
  {
    if k > 1 {
      HeldMeta(ps, k - 1);
    }
  }

  /** What the turn after the first k turns over a connection carrying one
      tunnel's packets ps meets: the k-th packet, delivered, or the end of
      the stream; the metadata struct holds the tunnel's metadata from the
      first turn on. */
  lemma TunnelBefore(ps: seq<Packet>, s: Bytes, pos: nat, k: nat)
    requires TunnelShaped(ps) && Carries(s, pos, ps) && k <= |ps|
    ensures k < |ps| ==> DeliversTurn(s, ps, pos, InitialHeld(), k)
    ensures k < |ps| ==> HeldAt(ps, InitialHeld(), k + 1).meta == ps[0].meta
    ensures k == |ps| ==> Offset(ps, pos, k) == |s|
    ensures 1 <= k ==> HeldAt(ps, InitialHeld(), k).meta == ps[0].meta
  {
    if k < |ps| {
      CarriedTurn(ps, s, pos, k);
      HeldMeta(ps, k + 1);
    } else {
      CarriedEnd(ps, s, pos);
    }
    if 1 <= k {
      HeldMeta(ps, k);
    }
  }

  /** The blocks handleBlock is given during the first k turns over one
      tunnel's packets ps: after each block turn the block struct, which
      holds that block's data; on the EOF turn the struct once more, still
      holding the last block, or the block as allocated when there was none. */
  function Handled(ps: seq<Packet>, k: nat): (got: seq<BlockFields>)
    requires TunnelShaped(ps) && 1 <= k <= |ps|
    ensures |got| == k - 1 && AllInBuffer(got)
  {
    if k == 1 then [] else Handled(ps, k - 1) + [HeldAt(ps, InitialHeld(), k).block]
  }

  /** The contents of a file after handleBlock was given each block of
      `got` in turn, on a session whose file is open and whose metadata has
      this block size: a block with a non-negative int64 offset is written
      there, any other changes nothing. */
  function Written(content: Bytes, blockSize: int32, got: seq<BlockFields>): (r: Bytes)
    requires AllInBuffer(got)
    ensures got == [] ==> r == content
    ensures |content| <= |r|
  {
    if got == [] then content
    else
      var b := got[|got| - 1];
      var before := Written(content, blockSize, got[..|got| - 1]);
      var offset := ToInt64(blockSize * b.blockIndex);
      if offset >= 0 then Sink.WriteAt(before, offset, GetData(b)) else before
  }

  /** handleFileMetadata creates a new entry for m: the name is not in the
      registry, it can be opened for writing, and the size is not negative. */
  predicate Creates(files: map<Bytes, TransferFile>, creatable: Bytes -> bool, m: MetadataFields)
  {
    m.name !in files && creatable(m.name) && m.totalSize >= 0
  }

  /** A connection that from pos on carries one tunnel's packets ps, whose
      metadata creates a new entry in a registry holding files. */
  predicate TunnelStream(s: Bytes, pos: nat, ps: seq<Packet>, files: map<Bytes, TransferFile>, creatable: Bytes -> bool)
  {
    TunnelShaped(ps) && Carries(s, pos, ps) && Creates(files, creatable, ps[0].meta)
  }

  /** serveOne's loop over one tunnel's packets ps, which start at pos0 on
      the connection, on a server whose registry and disk were files0 and
      disk0 before the loop. */
  datatype Tunnel = Tunnel(session: TransferSession, conn: Reader, metadata: FileMetadata, block: BlockInfo, fe: FileEOF,
    ps: seq<Packet>, pos0: nat, files0: map<Bytes, TransferFile>, disk0: map<Bytes, Bytes>)
  {
    /** The packets are one tunnel's, and its metadata creates a new entry. */
    predicate Valid()
    {
      TunnelShaped(ps) && Creates(files0, session.server.creatable, ps[0].meta)
    }

    /** The file's contents once handleBlock was given the blocks of the
        first k turns: the old contents, resized, with those blocks written. */
    function Contents(k: nat): Bytes
      requires Valid() && 1 <= k <= |ps|
    {
      var m := ps[0].meta;
      Written(Sink.Truncate(Content(disk0, m.name), m.totalSize), m.blockSize, Handled(ps, k))
    }
  }

  /** After k turns over one tunnel's stream: the cursor and the structs are
      where the k-th packet starts; from the first turn on, the session's
      file is the new entry, sharing the metadata struct, open, with only
      this session, holding Contents(k); after the EOF turn it records the
      EOF's digest. */
  ghost predicate TunnelProgress(t: Tunnel, k: nat)
    requires t.Valid()
    reads t.session, t.session.server, t.conn, t.metadata, t.block, t.fe
    reads if t.session.file == null then {} else {t.session.file}
  {
    var server, f, m := t.session.server, t.session.file, t.ps[0].meta;
    && k <= |t.ps|
    && t.conn.pos == Offset(t.ps, t.pos0, k)
    && Held(t.metadata.Fields(), t.block.Fields(), t.fe.Fields()) == HeldAt(t.ps, InitialHeld(), k)
    && (k == 0 ==> f == null && server.files == t.files0 && server.disk == t.disk0)
    && (k > 0 ==>
          && f != null && f.metadata == t.metadata && f.path == m.name
          && f.sessions == {t.session} && f.handleOpen && !f.closed
          && (k == |t.ps| ==> f.digest == HexEncode(t.ps[|t.ps| - 1].eof.digest))
          && server.files == t.files0[m.name := f]
          && server.disk == t.disk0[m.name := t.Contents(k)])
  }

  /** How serveOne ends on a connection carrying one tunnel's packets ps,
      from registry files0 and disk disk0: the session is detached and the
      file finalized with the digest check against the EOF's digest, the
      registry is as before, and the file holds every block handled, in
      order, written over its old contents resized. */
  ghost predicate TunnelServed(server: Server, ps: seq<Packet>, files0: map<Bytes, TransferFile>, disk0: map<Bytes, Bytes>, end: SessionEnd)
    requires TunnelShaped(ps) && ps[0].meta.totalSize >= 0
    reads server
  {
    var m, digest := ps[0].meta, ps[|ps| - 1].eof.digest;
    && end == Detached(Finalized(DigestMatches(server.disk, server.md5, m.name, HexEncode(digest))))
    && server.files == files0
    && server.disk == disk0[m.name := Written(Sink.Truncate(Content(disk0, m.name), m.totalSize), m.blockSize, Handled(ps, |ps|))]
  }

  /** How one tunnel's stream ends, once closeSession finalized its file
      with fin. */
  ghost predicate TunnelDone(t: Tunnel, fin: Finalization)
    requires t.Valid()
    reads t.session.server
  {
    TunnelServed(t.session.server, t.ps, t.files0, t.disk0, Detached(fin))
  }

  /** A fact only looked at where `Tick` is mentioned: the quantifier below
      hides OnTrack's body from proofs that merely carry it along. */
  predicate Tick(u: nat)
  {
    u >= 0
  }

  /** TunnelProgress after k turns, on a connection carrying the tunnel's
      packets, kept behind `Tick` so that serveOne's loop carries it from
      turn to turn without unfolding it. */
  ghost predicate OnTrack(t: Tunnel, k: nat)
    reads t.session, t.session.server, t.conn, t.metadata, t.block, t.fe
    reads if t.session.file == null then {} else {t.session.file}
  {
    forall u {:trigger Tick(u)} | Tick(u) :: t.Valid() && Carries(t.conn.data, t.pos0, t.ps) && TunnelProgress(t, k)
  }

  /** A turn of serveOne's loop over one tunnel's stream, after k turns,
      that read `action` and ended with `outcome`. */
  datatype Turn = Turn(t: Tunnel, k: nat, action: Action, outcome: Outcome)

  /** One more turn over one tunnel's stream hands handleBlock the block
      struct as that turn leaves it. */
  lemma WrittenNext(ps: seq<Packet>, k: nat, content: Bytes, blockSize: int32)
    requires TunnelShaped(ps) && 1 <= k < |ps|
    ensures var b := HeldAt(ps, InitialHeld(), k + 1).block;
      var before := Written(content, blockSize, Handled(ps, k));
      var offset := ToInt64(blockSize * b.blockIndex);
      Written(content, blockSize, Handled(ps, k + 1)) == if offset >= 0 then Sink.WriteAt(before, offset, GetData(b)) else before
  {
    var got := Handled(ps, k + 1);
    assert got[..|got| - 1] == Handled(ps, k);
  }

  /** The metadata turn over one tunnel's stream creates the entry. */
  twostate lemma MetadataProgress(turn: Turn)
    requires var t := turn.t; t.Valid() && turn.k == 0
    requires var t := turn.t; old(TunnelProgress(t, 0))
    requires var t := turn.t; t.conn.pos == Offset(t.ps, t.pos0, 1) && HeldAt(t.ps, InitialHeld(), 1).meta == t.ps[0].meta
    requires var t := turn.t; Held(t.metadata.Fields(), t.block.Fields(), t.fe.Fields()) == HeldAt(t.ps, InitialHeld(), 1)
    requires MetadataHandled(turn.t.session, turn.t.metadata)
    ensures TunnelProgress(turn.t, 1)
  {
    var t := turn.t;
    var m := t.ps[0].meta;
    assert t.metadata.name == m.name && t.metadata.totalSize == m.totalSize;
    assert old(t.session.server.files) == t.files0 && old(t.session.server.disk) == t.disk0;
    assert Handled(t.ps, 1) == [];
  }

  /** The disk after the (k + 1)-th packet's block is written, at its
      int64 offset when that is not negative, into the file holding the
      contents after k turns, holds the contents after k + 1 turns. */
  lemma DiskAfterBlock(t: Tunnel, k: nat, disk: map<Bytes, Bytes>, disk': map<Bytes, Bytes>)
    requires t.Valid() && 1 <= k < |t.ps|
    requires disk == t.disk0[t.ps[0].meta.name := t.Contents(k)]
    requires var m, b := t.ps[0].meta, HeldAt(t.ps, InitialHeld(), k + 1).block;
      var offset := ToInt64(m.blockSize * b.blockIndex);
      disk' == if offset >= 0 then disk[m.name := Sink.WriteAt(Content(disk, m.name), offset, GetData(b))] else disk
    ensures disk' == t.disk0[t.ps[0].meta.name := t.Contents(k + 1)]
  {
    var m := t.ps[0].meta;
    WrittenNext(t.ps, k, Sink.Truncate(Content(t.disk0, m.name), m.totalSize), m.blockSize);
  }

  /** A turn over one tunnel's stream that hands handleBlock the block
      struct of the (k + 1)-th packet, on the open file the metadata turn
      created, writes that block: the disk then holds the contents after
      k + 1 turns. */
  twostate lemma BlockWritten(turn: Turn)
    requires var t, k := turn.t, turn.k; t.Valid() && 1 <= k < |t.ps|
    requires var t, k := turn.t, turn.k; old(TunnelProgress(t, k))
    requires var t, k := turn.t, turn.k; Held(t.metadata.Fields(), t.block.Fields(), t.fe.Fields()) == HeldAt(t.ps, InitialHeld(), k + 1)
    requires var t, k := turn.t, turn.k; HeldAt(t.ps, InitialHeld(), k + 1).meta == t.ps[0].meta
    requires var f := turn.t.session.file;
      f != null && f == old(turn.t.session.file) && f.metadata == old(f.metadata) && f.handleOpen == old(f.handleOpen)
    requires DataInBuffer(turn.t.block.Fields()) && BlockHandled(turn.t.session, turn.t.block.Fields())
    ensures var t := turn.t; t.session.server.disk == t.disk0[t.ps[0].meta.name := t.Contents(turn.k + 1)]
  {
    var t, k := turn.t, turn.k;
    var m, f := t.ps[0].meta, t.session.file;
    assert f.metadata == t.metadata && t.metadata.blockSize == m.blockSize && f.path == m.name && f.handleOpen;
    assert t.block.Fields() == HeldAt(t.ps, InitialHeld(), k + 1).block;
    DiskAfterBlock(t, k, old(t.session.server.disk), t.session.server.disk);
  }


  /** A block turn over one tunnel's stream writes the block into the file. */
  twostate lemma BlockProgress(turn: Turn)
    requires var t, k := turn.t, turn.k; t.Valid() && 1 <= k < |t.ps| - 1
    requires var t, k := turn.t, turn.k; old(TunnelProgress(t, k))
    requires var t, k := turn.t, turn.k;
      t.conn.pos == Offset(t.ps, t.pos0, k + 1) && HeldAt(t.ps, InitialHeld(), k + 1).meta == t.ps[0].meta
    requires var t, k := turn.t, turn.k; Held(t.metadata.Fields(), t.block.Fields(), t.fe.Fields()) == HeldAt(t.ps, InitialHeld(), k + 1)
    requires var s := turn.t.session; old(s.file) != null && s.file == old(s.file) && unchanged(s.file)
    requires DataInBuffer(turn.t.block.Fields()) && BlockHandled(turn.t.session, turn.t.block.Fields())
    ensures TunnelProgress(turn.t, turn.k + 1)
  {
    BlockWritten(turn);
  }

  /** The EOF turn over one tunnel's stream records the digest and writes
      the last block once more. */
  twostate lemma EofProgress(turn: Turn)
    requires var t := turn.t; t.Valid() && turn.k == |t.ps| - 1
    requires var t := turn.t; old(TunnelProgress(t, |t.ps| - 1))
    requires var t := turn.t; t.conn.pos == Offset(t.ps, t.pos0, |t.ps|) && HeldAt(t.ps, InitialHeld(), |t.ps|).meta == t.ps[0].meta
    requires var t := turn.t; Held(t.metadata.Fields(), t.block.Fields(), t.fe.Fields()) == HeldAt(t.ps, InitialHeld(), |t.ps|)
    requires var s := turn.t.session; old(s.file) != null && s.file == old(s.file)
    requires var t := turn.t; DigestRecorded(t.session.file, HexEncode(t.ps[|t.ps| - 1].eof.digest))
    requires DataInBuffer(turn.t.block.Fields()) && BlockHandled(turn.t.session, turn.t.block.Fields())
    ensures TunnelProgress(turn.t, |turn.t.ps|)
  {
    BlockWritten(turn);
  }

  /** The end of one tunnel's stream: the session was the file's only one,
      so closeSession finalizes the file, and the registry loses the entry
      the session created. */
  twostate lemma ClosedProgress(turn: Turn)
    requires var t := turn.t; t.Valid() && turn.k == |t.ps|
    requires var t := turn.t; old(TunnelProgress(t, |t.ps|))
    requires var t := turn.t; HeldAt(t.ps, InitialHeld(), |t.ps|).meta == t.ps[0].meta
    requires var t := turn.t; Held(t.metadata.Fields(), t.block.Fields(), t.fe.Fields()) == HeldAt(t.ps, InitialHeld(), |t.ps|)
    requires turn.outcome.Ended? && turn.outcome.end.Detached?
    requires var s := turn.t.session; old(s.file) != null && SessionClosed(s, old(s.file), turn.outcome.end.fin)
    ensures TunnelDone(turn.t, turn.outcome.end.fin)
  {
    var t := turn.t;
    var m, f := t.ps[0].meta, old(t.session.file);
    assert Detach({t.session}, false, t.session) == ({}, true, true);
    assert f.metadata == t.metadata && t.metadata.name == m.name;
    assert t.files0[m.name := f] - {m.name} == t.files0;
  }

  /** One turn of serveOne's loop over one tunnel's stream, after k turns,
      given what Step promises: the k-th packet moves the session on, and
      the end of the stream finalizes the file. */
  twostate lemma TunnelTurn(turn: Turn)
    requires var t, k := turn.t, turn.k; t.Valid() && k <= |t.ps|
    requires var t, k := turn.t, turn.k; old(TunnelProgress(t, k))
    requires var t, k := turn.t, turn.k; 1 <= k ==> HeldAt(t.ps, InitialHeld(), k).meta == t.ps[0].meta
    requires var t, k := turn.t, turn.k; k < |t.ps| ==> HeldAt(t.ps, InitialHeld(), k + 1).meta == t.ps[0].meta
    requires var t, k := turn.t, turn.k;
      Stepped(turn.action, t.conn.pos, Held(t.metadata.Fields(), t.block.Fields(), t.fe.Fields()))
      == if k < |t.ps| then Stepped(Delivered(t.ps[k]), Offset(t.ps, t.pos0, k + 1), HeldAt(t.ps, InitialHeld(), k + 1))
         else Stepped(ConnectionEnded, Offset(t.ps, t.pos0, k), HeldAt(t.ps, InitialHeld(), k))
    requires DataInBuffer(turn.t.block.Fields())
    requires var s, action, outcome := turn.t.session, turn.action, turn.outcome;
      action.ConnectionEnded? && old(s.file) != null ==>
      outcome.Ended? && outcome.end.Detached? && SessionClosed(s, old(s.file), outcome.end.fin)
    requires turn.action.GotMetadata? ==> MetadataHandled(turn.t.session, turn.t.metadata)
    requires var s, action := turn.t.session, turn.action;
      action.GotBlock? && old(s.file) != null ==>
      && s.file == old(s.file) && unchanged(s.file)
      && BlockHandled(s, action.block)
    requires var s, action := turn.t.session, turn.action;
      action.GotEof? && old(s.file) != null ==>
      && s.file == old(s.file)
      && DigestRecorded(s.file, HexEncode(action.eof.digest))
      && BlockHandled(s, turn.t.block.Fields())
    ensures turn.k < |turn.t.ps| ==> TunnelProgress(turn.t, turn.k + 1)
    ensures turn.k == |turn.t.ps| ==> turn.outcome.Ended? && turn.outcome.end.Detached? && TunnelDone(turn.t, turn.outcome.end.fin)
  {
    var t, k := turn.t, turn.k;
    if k == 0 {
      MetadataProgress(turn);
    } else if k < |t.ps| - 1 {
      assert t.ps[k].Block? && turn.action.block == t.block.Fields();
      BlockProgress(turn);
    } else if k == |t.ps| - 1 {
      assert t.ps[k].Eof? && turn.action.GotEof?;
      EofProgress(turn);
    } else {
      ClosedProgress(turn);
    }
  }

  /** serveOne's loop starts on track: before the first turn the cursor
      is where the tunnel's packets start, the structs are zeroed, and the
      session has no file yet. */
  lemma TunnelStart(t: Tunnel)
    requires t.Valid() && Carries(t.conn.data, t.pos0, t.ps) && t.conn.pos == t.pos0
    requires Held(t.metadata.Fields(), t.block.Fields(), t.fe.Fields()) == InitialHeld()
    requires t.session.file == null && t.session.server.files == t.files0 && t.session.server.disk == t.disk0
    ensures OnTrack(t, 0)
  {
    assert TunnelProgress(t, 0);
  }

  /** serveOne's loop stays on track over one tunnel's stream: a turn
      with the effects `StepEffects` describes, taken after k turns, goes
      on and leaves the loop on track after k + 1 turns, or it is the turn
      that reads the end of the connection, detaches the session and leaves
      the registry and the disk as the whole tunnel should. */
  twostate lemma TunnelAdvance(turn: Turn)
    requires turn.t.Valid() && old(OnTrack(turn.t, turn.k))
    requires var t := turn.t;
      StepEffects(t.session, t.conn, t.metadata, t.block, t.fe, old(t.session.file), turn.action, turn.outcome)
    ensures turn.outcome.Continue? ==> OnTrack(turn.t, turn.k + 1)
    ensures turn.outcome.Ended? ==> turn.outcome.end.Detached? && TunnelDone(turn.t, turn.outcome.end.fin)
  {
    var t, k := turn.t, turn.k;
    assert Tick(k);
    TunnelBefore(t.ps, t.conn.data, t.pos0, k);
    TunnelTurn(turn);
    if turn.outcome.Continue? {
      assert Tick(k + 1);
    }
  }

  // ----------------------------------------------------------------- loop

  /** How serveOne ends: after closeSession; by a `break` without
      closeSession (a packet that fails to decode, or an unknown type); or
      by a panic (the `make` of a negative size in BlockInfo.Read, or the
      dereference of a session's nil file), which in Go ends the whole
      server process and not only this connection. */
  datatype SessionEnd = Detached(fin: Finalization) | Abandoned(last: Action) | Crashed(last: Action)

  datatype Outcome = Continue | Ended(end: SessionEnd)

  /** Whether the turn that read `a` panics, on a session that has a file
      or not: a negative block size always does, and a block, an EOF or the
      end of the connection does when the session never got a file. */
  predicate Panics(a: Action, hasFile: bool)
  {
    a == BlockSizeNegative || (!hasFile && (a.ConnectionEnded? || a.GotBlock? || a.GotEof?))
  }

  /** How a turn that read `a` and stopped the loop ends the session. */
  predicate Ends(a: Action, hasFile: bool, end: SessionEnd)
  {
    if Panics(a, hasFile) then end == Crashed(a)
    else if a.ConnectionEnded? then end.Detached?
    else end == Abandoned(a)
  }

  /** The EOF case's change to the session's file: the digest is recorded,
      and nothing else about the file changes. */
  twostate predicate DigestRecorded(f: TransferFile, digest: string)
    reads f
  {
    && f.digest == digest
    && f.metadata == old(f.metadata) && f.sessions == old(f.sessions)
    && f.handleOpen == old(f.handleOpen) && f.closed == old(f.closed)
  }

  /** The files of `others` other than a and b keep every field. */
  twostate predicate OthersUnchanged(others: set<TransferFile>, a: TransferFile?, new b: TransferFile?)
    reads others
  {
    forall f | f in others && f != a && f != b :: unchanged(f)
  }

  /** Where the session's file comes from after a turn that read `action`:
      it is the file the session had, a new file, or the registry entry the
      metadata packet named. */
  twostate predicate FileFrom(session: TransferSession, action: Action)
    reads session, session.server
  {
    || session.file == old(session.file)
    || (session.file != null && fresh(session.file))
    || (action.GotMetadata? && action.meta.name in old(session.server.files)
        && session.file == old(session.server.files[action.meta.name]))
  }

  /** The metadata case of the loop: read the packet into the reused
      struct and hand it to handleFileMetadata. */
  method TakeMetadata(session: TransferSession, conn: Reader, metadata: FileMetadata, block: BlockInfo, fe: FileEOF)
    returns (action: Action)
    requires conn.Valid() && session.Attached()
    modifies session, conn, metadata, session.server, session.server.files.Values
    ensures conn.Valid()
    ensures Stepped(action, conn.pos, Held(metadata.Fields(), block.Fields(), fe.Fields()))
      == MetadataTurn(conn.data, old(conn.pos), old(Held(metadata.Fields(), block.Fields(), fe.Fields())))
    ensures MetadataHandled(session, metadata) && RegistryGrows(session.server) && RegistryExtends(session.server)
    ensures session.Attached()
    ensures FileFrom(session, action)
    ensures OthersUnchanged(old(session.server.files.Values), old(session.file), session.file)
  {
    var _ := metadata.Read(conn);
    action := GotMetadata(metadata.Fields());
    session.HandleFileMetadata(metadata);
  }

  /** The block case: read the packet into the reused struct. A packet that
      fails to decode ends the loop without closeSession, a negative size
      panics in BlockInfo.Read, and a session with no file panics in
      handleBlock. */
  method TakeBlock(session: TransferSession, conn: Reader, metadata: FileMetadata, block: BlockInfo, fe: FileEOF)
    returns (action: Action, outcome: Outcome)
    requires conn.Valid()
    modifies conn, block, session.server
    ensures conn.Valid()
    ensures Stepped(action, conn.pos, Held(metadata.Fields(), block.Fields(), fe.Fields()))
      == BlockTurn(conn.data, old(conn.pos), old(Held(metadata.Fields(), block.Fields(), fe.Fields())))
    ensures outcome.Continue? <==> action.GotBlock? && session.file != null
    ensures outcome.Ended? ==> Ends(action, session.file != null, outcome.end)
    ensures !outcome.Continue? ==> session.server.files == old(session.server.files) && session.server.disk == old(session.server.disk)
    ensures outcome.Continue? ==> DataInBuffer(block.Fields()) && BlockHandled(session, action.block)
  {
    var status := block.Read(conn);
    if status == NegativeLength {
      action := BlockSizeNegative;
      return action, Ended(Crashed(action));
    } else if status != Ok {
      action := DecodeFailed(BlockPacket);
      return action, Ended(Abandoned(action));
    }
    action := GotBlock(block.Fields());
    if session.file == null {
      return action, Ended(Crashed(action));
    }
    session.HandleBlock(block);
    outcome := Continue;
  }

  /** The EOF case: read the digest, record its hex form on the session's
      file, and hand the block struct, which still holds the previous block,
      to handleBlock once more. A session with no file panics. */
  method TakeEof(session: TransferSession, conn: Reader, metadata: FileMetadata, block: BlockInfo, fe: FileEOF)
    returns (action: Action, outcome: Outcome)
    requires conn.Valid() && DataInBuffer(block.Fields())
    modifies conn, fe, session.server
    modifies if session.file == null then {} else {session.file}
    ensures conn.Valid()
    ensures Stepped(action, conn.pos, Held(metadata.Fields(), block.Fields(), fe.Fields()))
      == EofTurn(conn.data, old(conn.pos), old(Held(metadata.Fields(), block.Fields(), fe.Fields())))
    ensures outcome.Continue? <==> action.GotEof? && session.file != null
    ensures outcome.Ended? ==> Ends(action, session.file != null, outcome.end)
    ensures !outcome.Continue? ==>
      && session.server.files == old(session.server.files) && session.server.disk == old(session.server.disk)
      && (session.file != null ==> unchanged(session.file))
    ensures outcome.Continue? ==>
      && DigestRecorded(session.file, HexEncode(action.eof.digest))
      && BlockHandled(session, block.Fields())
  {
    var status := fe.Read(conn);
    if status != Ok {
      action := DecodeFailed(FileEofPacket);
      return action, Ended(Abandoned(action));
    }
    action := GotEof(fe.Fields());
    if session.file == null {
      return action, Ended(Crashed(action));
    }
    session.file.digest := HexEncode(fe.digest);
    session.HandleBlock(block);
    outcome := Continue;
  }

  /** The connection ended: closeSession, which panics on a session that
      never got a file. */
  method EndOfConnection(session: TransferSession) returns (outcome: Outcome)
    modifies session.server
    modifies if session.file == null then {} else {session.file}
    ensures outcome.Ended? && Ends(ConnectionEnded, old(session.file) != null, outcome.end)
    ensures old(session.file) == null ==> session.server.files == old(session.server.files) && session.server.disk == old(session.server.disk)
    ensures old(session.file) != null ==> SessionClosed(session, old(session.file), outcome.end.fin)
  {
    if session.file == null {
      return Ended(Crashed(ConnectionEnded));
    }
    var fin := session.CloseSession();
    outcome := Ended(Detached(fin));
  }

  /** The packet part of one turn of serveOne's loop, after the type byte
      t was read: the packet is decoded into its struct and handed to its
      handler. */
  method HandlePacket(t: byte, session: TransferSession, conn: Reader, metadata: FileMetadata, block: BlockInfo, fe: FileEOF)
    returns (action: Action, outcome: Outcome)
    requires conn.Valid() && DataInBuffer(block.Fields()) && session.Attached()
    modifies session, conn, metadata, block, fe, session.server, session.server.files.Values
    modifies if session.file == null then {} else {session.file}
    ensures conn.Valid()
    ensures Stepped(action, conn.pos, Held(metadata.Fields(), block.Fields(), fe.Fields()))
      == PacketTurn(t, conn.data, old(conn.pos), old(Held(metadata.Fields(), block.Fields(), fe.Fields())))
    ensures outcome.Continue? <==> !Terminal(action) && !Panics(action, old(session.file) != null)
    ensures outcome.Ended? ==> Ends(action, old(session.file) != null, outcome.end)
    ensures outcome.Continue? ==> DataInBuffer(block.Fields()) && RegistryGrows(session.server) && session.Attached()
    ensures outcome.Continue? ==> RegistryExtends(session.server)
    ensures FileFrom(session, action)
    ensures OthersUnchanged(old(session.server.files.Values), old(session.file), session.file)
    ensures !outcome.Continue? ==>
      && session.file == old(session.file)
      && session.server.files == old(session.server.files)
      && session.server.disk == old(session.server.disk)
      && (session.file != null ==> unchanged(session.file))
    ensures action.GotMetadata? ==> MetadataHandled(session, metadata)
    ensures action.GotBlock? && old(session.file) != null ==>
      && session.file == old(session.file) && unchanged(session.file)
      && BlockHandled(session, action.block)
    ensures action.GotEof? && old(session.file) != null ==>
      && session.file == old(session.file)
      && DigestRecorded(session.file, HexEncode(action.eof.digest))
      && BlockHandled(session, block.Fields())
  {
    if t == FileMetadataPacket {
      action := TakeMetadata(session, conn, metadata, block, fe);
      outcome := Continue;
    } else if t == BlockPacket {
      action, outcome := TakeBlock(session, conn, metadata, block, fe);
    } else if t == FileEofPacket {
      action, outcome := TakeEof(session, conn, metadata, block, fe);
    } else {
      action := UnknownPacket(t);
      outcome := Ended(Abandoned(action));
    }
  }

  /** What one turn of serveOne's loop did, when it read `action` and
      ended with `outcome`: the cursor and the structs moved as `Dispatch`
      predicts; the turn went on exactly when it read a packet that neither
      stops the loop nor panics; a turn that stopped the loop without
      closing the session changed nothing on the server; and each packet
      had the effect of its handler, the end of the connection that of
      closeSession. */
  twostate predicate StepEffects(session: TransferSession, conn: Reader, metadata: FileMetadata, block: BlockInfo, fe: FileEOF,
                                 file: TransferFile?, action: Action, outcome: Outcome)
    reads session, session.server, conn, metadata, block, fe, session.server.files.Values
    reads if session.file == null then {} else {session.file, session.file.metadata}
    reads if file == null then {} else {file, file.metadata}
  {
    && file == old(session.file)
    && conn.Valid()
    && old(conn.Valid())
    && Stepped(action, conn.pos, Held(metadata.Fields(), block.Fields(), fe.Fields()))
       == Dispatch(conn.data, old(conn.pos), old(Held(metadata.Fields(), block.Fields(), fe.Fields())))
    && (outcome.Continue? <==> !Terminal(action) && !Panics(action, file != null))
    && (outcome.Ended? ==> Ends(action, file != null, outcome.end))
    && (outcome.Continue? ==> DataInBuffer(block.Fields()) && RegistryGrows(session.server) && session.Attached())
    && (outcome.Continue? ==> RegistryExtends(session.server))
    && FileFrom(session, action)
    && (outcome.Ended? && !outcome.end.Detached? ==>
          && session.file == file
          && session.server.files == old(session.server.files)
          && session.server.disk == old(session.server.disk)
          && (session.file != null ==> unchanged(session.file)))
    && (action.ConnectionEnded? && file != null ==>
          outcome.Ended? && outcome.end.Detached? && SessionClosed(session, file, outcome.end.fin))
    && (action.GotMetadata? ==> MetadataHandled(session, metadata))
    && (action.GotBlock? && file != null ==>
          && session.file == file && unchanged(session.file)
          && BlockHandled(session, action.block))
    && (action.GotEof? && file != null ==>
          && session.file == file
          && DigestRecorded(session.file, HexEncode(action.eof.digest))
          && BlockHandled(session, block.Fields()))
  }

  /** One turn of serveOne's loop: read the type byte, then close the
      session if the connection ended or handle the packet. The turn is the
      one `Dispatch` predicts; it goes on exactly when it read a packet that
      neither stops the loop nor panics, and then it has the effect of that
      packet's handler. */
  method Step(session: TransferSession, conn: Reader, metadata: FileMetadata, block: BlockInfo, fe: FileEOF)
    returns (action: Action, outcome: Outcome)
    requires conn.Valid() && DataInBuffer(block.Fields()) && session.Attached()
    modifies session, conn, metadata, block, fe, session.server, session.server.files.Values
    ensures StepEffects(session, conn, metadata, block, fe, old(session.file), action, outcome)
    ensures OthersUnchanged(old(session.server.files.Values), old(session.file), session.file)
  {
    var typeBytes, ok := conn.ReadFull(1);
    if !ok {
      action := ConnectionEnded;
      outcome := EndOfConnection(session);
    } else {
      assert typeBytes[0] == conn.data[old(conn.pos)];
      action, outcome := HandlePacket(typeBytes[0], session, conn, metadata, block, fe);
    }
  }

  /** How serveOne's turns `actions` end, out of the turns `whole` the
      connection holds: they are a prefix of them, all of them exactly when
      the last is terminal (otherwise that turn panicked); the last decides
      the end, given whether the session was `attached` to a file, which it
      can only be after a metadata packet. */
  predicate Served(actions: seq<Action>, whole: seq<Action>, attached: bool, end: SessionEnd)
  {
    && actions <= whole
    && |actions| >= 1 && Ends(actions[|actions| - 1], attached, end)
    && (Terminal(actions[|actions| - 1]) <==> actions == whole)
    && (attached ==> exists j | 0 <= j < |actions| - 1 :: actions[j].GotMetadata?)
  }

  /** The fields of a file that a session can change. */
  type FileState = (FileMetadata, bool, set<TransferSession>, string, bool)

  function StateOf(f: TransferFile): FileState
    reads f
  {
    (f.metadata, f.handleOpen, f.sessions, f.digest, f.closed)
  }

  /** The files of the registry files0 that no metadata turn of `actions`
      named keep the states they had in states0, and the session's file is
      either a file files0 did not hold or one a metadata turn named. */
  ghost predicate FilesKept(session: TransferSession, files0: map<Bytes, TransferFile>, states0: map<TransferFile, FileState>,
                            actions: seq<Action>)
    reads session, files0.Values
  {
    && (session.file != null ==> session.file !in files0.Values || Attaches(actions, files0, session.file))
    && (forall f | f in files0.Values && !Attaches(actions, files0, f) :: f in states0 && StateOf(f) == states0[f])
  }

  /** serveOne's frame on the registry while the loop goes on: every name of
      files0 keeps its file, a new name holds a file files0 did not hold,
      and FilesKept. */
  ghost predicate Framed(session: TransferSession, files0: map<Bytes, TransferFile>, states0: map<TransferFile, FileState>,
                         actions: seq<Action>)
    reads session, session.server, files0.Values
  {
    var files := session.server.files;
    && (forall k | k in files0 :: k in files && files[k] == files0[k])
    && (forall k | k in files && k !in files0 :: files[k] !in files0.Values)
    && FilesKept(session, files0, states0, actions)
  }

  /** A turn of serveOne's loop, after the turns `done`, seen against the
      registry files0 and file states states0 before the loop. */
  datatype FrameTurn = FrameTurn(session: TransferSession, files0: map<Bytes, TransferFile>, states0: map<TransferFile, FileState>,
                                 done: seq<Action>, action: Action, outcome: Outcome)

  /** A turn that changes only the session's old and new files, and takes
      the new one from where FileFrom says, keeps serveOne's frame. */
  twostate lemma FrameAdvance(turn: FrameTurn)
    requires old(Framed(turn.session, turn.files0, turn.states0, turn.done))
    requires FileFrom(turn.session, turn.action)
    requires OthersUnchanged(old(turn.session.server.files.Values), old(turn.session.file), turn.session.file)
    requires turn.outcome.Continue? ==> RegistryExtends(turn.session.server)
    ensures turn.outcome.Continue? ==> Framed(turn.session, turn.files0, turn.states0, turn.done + [turn.action])
    ensures FilesKept(turn.session, turn.files0, turn.states0, turn.done + [turn.action])
  {
    var session, files0, done, action := turn.session, turn.files0, turn.done, turn.action;
    var actions := done + [action];
    forall f | f in files0.Values && Attaches(done, files0, f)
      ensures Attaches(actions, files0, f)
    {
      var j :| 0 <= j < |done| && done[j].GotMetadata? && done[j].meta.name in files0 && files0[done[j].meta.name] == f;
      assert actions[j] == done[j];
    }
    if action.GotMetadata? && action.meta.name in files0 {
      assert actions[|done|] == action;
    }
    forall f | f in files0.Values && !Attaches(actions, files0, f)
      ensures f in turn.states0 && StateOf(f) == turn.states0[f]
    {
      var k :| k in files0 && files0[k] == f;
      assert old(session.server.files)[k] == f;
      assert f in old(session.server.files.Values);
      assert f != old(session.file) && f != session.file;
      assert unchanged(f);
      assert StateOf(f) == old(StateOf(f));
    }
  }

  /** serveOne's turns `actions` against the registry files0 and the file
      states states0 before the loop. */
  datatype Loop = Loop(files0: map<Bytes, TransferFile>, states0: map<TransferFile, FileState>, actions: seq<Action>)

  /** Every file of the registry files0 that no metadata turn of
      `actions` named keeps its state. */
  twostate predicate KeptFiles(files0: map<Bytes, TransferFile>, actions: seq<Action>)
    reads files0.Values
  {
    forall f | f in files0.Values && !Attaches(actions, files0, f) :: StateOf(f) == old(StateOf(f))
  }

  /** Every file of the registry files0 keeps its state. */
  twostate predicate AllKept(files0: map<Bytes, TransferFile>)
    reads files0.Values
  {
    forall f | f in files0.Values :: StateOf(f) == old(StateOf(f))
  }

  /** When states0 holds the files' states before the loop, the files that
      FilesKept keeps are unchanged; all of them are when no turn named an
      entry of files0. */
  twostate lemma KeptUnchanged(k: Loop)
    requires forall f | f in k.files0.Values :: f in k.states0 && k.states0[f] == old(StateOf(f))
    requires forall f | f in k.files0.Values && !Attaches(k.actions, k.files0, f) :: f in k.states0 && StateOf(f) == k.states0[f]
    ensures KeptFiles(k.files0, k.actions)
    ensures (forall f | f in k.files0.Values :: !Attaches(k.actions, k.files0, f)) ==> AllKept(k.files0)
  {
  }

  /** A metadata turn of `actions` named an entry of the registry `files`
      that is f: the only way a session attaches to a file it did not
      create. */
  ghost predicate Attaches(actions: seq<Action>, files: map<Bytes, TransferFile>, f: TransferFile)
  {
    exists j | 0 <= j < |actions| :: actions[j].GotMetadata? && actions[j].meta.name in files && files[actions[j].meta.name] == f
  }

  /** On a connection carrying one tunnel's packets for a name the registry
      `files` does not hold, no turn names an entry of `files`. */
  lemma TunnelAttachesNothing(s: Bytes, pos: nat, ps: seq<Packet>, files: map<Bytes, TransferFile>, creatable: Bytes -> bool,
                              actions: seq<Action>)
    requires TunnelStream(s, pos, ps, files, creatable) && actions <= Receive(s, pos, InitialHeld())
    ensures forall f :: !Attaches(actions, files, f)
  {
    assert forall i | 0 <= i < |ps| :: Encodable(ps[i]);
    ReceiveEncoded(ps, s, pos, InitialHeld());
    OnlyFirstMetadata(ps, actions);
  }

  /** The turns over one tunnel's packets name only the tunnel's metadata. */
  lemma OnlyFirstMetadata(ps: seq<Packet>, actions: seq<Action>)
    requires TunnelShaped(ps) && actions <= DeliveredAll(ps) + [ConnectionEnded]
    ensures forall j | 0 <= j < |actions| && actions[j].GotMetadata? :: actions[j].meta == ps[0].meta
  {
    forall j | 0 <= j < |actions| && actions[j].GotMetadata?
      ensures actions[j].meta == ps[0].meta
    {
      DeliveredLength(ps);
      if j < |ps| {
        DeliveredAt(ps, j);
      }
    }
  }

  lemma {:induction false} DeliveredLength(ps: seq<Packet>)
    requires forall i | 0 <= i < |ps| :: WireSafe(ps[i])
    ensures |DeliveredAll(ps)| == |ps|
  {
    if ps != [] {
      DeliveredLength(ps[1..]);
    }
  }

  /** The j-th action delivered from ps is the j-th packet's. */
  lemma {:induction false} DeliveredAt(ps: seq<Packet>, j: nat)
    requires forall i | 0 <= i < |ps| :: WireSafe(ps[i])
    requires j < |ps|
    ensures j < |DeliveredAll(ps)| && DeliveredAll(ps)[j] == Delivered(ps[j])
    decreases j
  {
    if j > 0 {
      DeliveredAt(ps[1..], j - 1);
    }
  }

  /** One turn of serveOne's loop, as the loop's proof sees it: the turns
      taken so far, `done`, followed by what `Receive` predicts from the
      cursor, are the turns `whole` of the connection; the turn takes the
      next of them and ends the session as `Ends` says when it does; and,
      when `tunnel` says the connection carries the tunnel `t` of which k
      turns are done, the turn takes the tunnel one step further, or, after
      the last packet, finalizes the file. */
  method TakeTurn(session: TransferSession, conn: Reader, metadata: FileMetadata, block: BlockInfo, fe: FileEOF,
                  ghost hadFile: bool, ghost done: seq<Action>, ghost whole: seq<Action>, ghost metaAt: nat,
                  ghost tunnel: bool, ghost t: Tunnel, ghost k: nat,
                  ghost files0: map<Bytes, TransferFile>, ghost states0: map<TransferFile, FileState>)
    returns (action: Action, outcome: Outcome, ghost actions: seq<Action>, ghost metaNow: nat)
    requires conn.Valid() && DataInBuffer(block.Fields()) && session.Attached() && hadFile == (session.file != null)
    requires Replays(done, conn.data, conn.pos, Held(metadata.Fields(), block.Fields(), fe.Fields()), whole)
    requires hadFile ==> metaAt < |done| && done[metaAt].GotMetadata?
    requires Framed(session, files0, states0, done)
    requires tunnel ==> && t.session == session && t.conn == conn && t.metadata == metadata && t.block == block && t.fe == fe
                        && t.Valid() && OnTrack(t, k)
    modifies session, conn, metadata, block, fe, session.server, session.server.files.Values
    ensures conn.Valid() && old(conn.pos) <= conn.pos && (!Terminal(action) ==> old(conn.pos) < conn.pos)
    ensures actions == done + [action] && actions <= whole
    ensures outcome.Continue? <==> !Terminal(action) && !Panics(action, hadFile)
    ensures outcome.Continue? ==>
      && Replays(actions, conn.data, conn.pos, Held(metadata.Fields(), block.Fields(), fe.Fields()), whole)
      && DataInBuffer(block.Fields()) && RegistryGrows(session.server) && session.Attached()
      && (session.file != null ==> metaNow < |actions| && actions[metaNow].GotMetadata?)
    ensures outcome.Continue? ==> Framed(session, files0, states0, actions)
    ensures FilesKept(session, files0, states0, actions)
    ensures outcome.Ended? ==> Served(actions, whole, hadFile, outcome.end)
    ensures tunnel && outcome.Continue? ==> OnTrack(t, k + 1)
    ensures tunnel && outcome.Ended? ==> outcome.end.Detached? && TunnelDone(t, outcome.end.fin)
  {
    ghost var held := Held(metadata.Fields(), block.Fields(), fe.Fields());
    label before:
    action, outcome := Step(session, conn, metadata, block, fe);
    if tunnel {
      TunnelAdvance@before(Turn(t, k, action, outcome));
    }
    FrameAdvance@before(FrameTurn(session, files0, states0, done, action, outcome));
    ReplayTurn(done, conn.data, old(conn.pos), held, whole, action, conn.pos, Held(metadata.Fields(), block.Fields(), fe.Fields()));
    actions := done + [action];
    metaNow := if action.GotMetadata? then |done| else metaAt;
    if outcome.Ended? && hadFile {
      assert actions[metaAt].GotMetadata?;
    }
  }

  /** serveOne: a fresh session and fresh structs, then turns of the loop
      until one ends it (see `Turns`). On a connection carrying one tunnel's
      packets `ps` (a ghost argument, used only by the specification) whose
      metadata creates a new entry, the session ends by finalizing the file
      with the digest check against the EOF's digest, the registry is as
      before, every file it held before is left as it was, and the new file
      holds the blocks handled, in order, written over its old contents
      resized. On any connection, a file the registry held before is left
      as it was unless a metadata packet of the session named it. */
  method ServeOne(server: Server, conn: Reader, ghost ps: seq<Packet>)
    returns (end: SessionEnd, ghost actions: seq<Action>, ghost attached: bool)
    requires conn.Valid()
    modifies server, conn, server.files.Values
    ensures Served(actions, Receive(conn.data, old(conn.pos), InitialHeld()), attached, end)
    ensures TunnelStream(conn.data, old(conn.pos), ps, old(server.files), server.creatable) ==>
      TunnelServed(server, ps, old(server.files), old(server.disk), end)
    ensures KeptFiles(old(server.files), actions)
    ensures TunnelStream(conn.data, old(conn.pos), ps, old(server.files), server.creatable) ==> AllKept(old(server.files))
  {
    ghost var states0 := map f | f in server.files.Values :: StateOf(f);
    var session := new TransferSession(server);
    var block := new BlockInfo(Zeros(ReceiveBufferSize));
    var fe := new FileEOF();
    var metadata := new FileMetadata();
    end, actions, attached := Turns(session, conn, metadata, block, fe, ps, states0);
    if TunnelStream(conn.data, old(conn.pos), ps, old(server.files), server.creatable) {
      TunnelAttachesNothing(conn.data, old(conn.pos), ps, old(server.files), server.creatable, actions);
    }
    KeptUnchanged(Loop(old(server.files), states0, actions));
  }

  /** serveOne's loop, on a session without a file and structs holding
      nothing yet: turns until one ends the session. The turns taken are
      the turns `Receive` predicts, all of them unless a turn that would go
      on panics; the last turn decides the end, given whether the session
      then had a file, which it can only have after a metadata packet. On a
      connection carrying one tunnel's packets `ps` whose metadata creates a
      new entry, the session ends as `TunnelServed` says. A file the
      registry held before keeps the state recorded in `states0` unless a
      metadata packet named it. */
  method Turns(session: TransferSession, conn: Reader, metadata: FileMetadata, block: BlockInfo, fe: FileEOF,
               ghost ps: seq<Packet>, ghost states0: map<TransferFile, FileState>)
    returns (end: SessionEnd, ghost actions: seq<Action>, ghost attached: bool)
    requires conn.Valid() && session.file == null
    requires Held(metadata.Fields(), block.Fields(), fe.Fields()) == InitialHeld()
    requires forall f | f in session.server.files.Values :: f in states0 && states0[f] == StateOf(f)
    modifies session, conn, metadata, block, fe, session.server, session.server.files.Values
    ensures Served(actions, Receive(conn.data, old(conn.pos), InitialHeld()), attached, end)
    ensures TunnelStream(conn.data, old(conn.pos), ps, old(session.server.files), session.server.creatable) ==>
      TunnelServed(session.server, ps, old(session.server.files), old(session.server.disk), end)
    ensures FilesKept(session, old(session.server.files), states0, actions)
  {
    var server := session.server;
    ghost var tunnel := TunnelStream(conn.data, conn.pos, ps, server.files, server.creatable);
    ghost var whole := Receive(conn.data, conn.pos, InitialHeld());
    ghost var t := Tunnel(session, conn, metadata, block, fe, ps, old(conn.pos), old(server.files), old(server.disk));
    ghost var metaAt: nat, turns: nat := 0, 0;
    actions := [];
    if tunnel {
      TunnelStart(t);
    }
    while true
      invariant conn.Valid() && DataInBuffer(block.Fields())
      invariant session.server == server
      invariant session.Attached()
      invariant forall f | f in server.files.Values :: f in old(server.files.Values) || fresh(f)
      invariant Framed(session, old(server.files), states0, actions)
      invariant old(conn.pos) <= conn.pos
      invariant Replays(actions, conn.data, conn.pos, Held(metadata.Fields(), block.Fields(), fe.Fields()), whole)
      invariant session.file != null ==> metaAt < |actions| && actions[metaAt].GotMetadata?
      invariant turns == |actions|
      invariant tunnel ==> OnTrack(t, turns)
      decreases |conn.data| - conn.pos
    {
      ghost var hadFile := session.file != null;
      var action, outcome, taken, metaNow := TakeTurn(session, conn, metadata, block, fe, hadFile, actions, whole, metaAt, tunnel, t, turns,
                                                      old(server.files), states0);
      actions, metaAt, turns := taken, metaNow, turns + 1;
      if outcome.Ended? {
        return outcome.end, actions, hadFile;
      }
    }
  }
}
