/** The receiving side's state: the registry of files being received, keyed
    by name, each file with the set of sessions (connections) feeding it, and
    the files on disk that the sessions write into. The three handlers change
    this state in place; each one's effect is stated once, as a two-state
    predicate, so that the dispatch loop can state its steps with the same
    predicates. */
module Receiver {
  import opened Bytes
  import opened Codec
  import opened Packets
  import Sink

  /** The contents of the file at `path`, empty when there is none. */
  function Content(disk: map<Bytes, Bytes>, path: Bytes): Bytes
  {
    if path in disk then disk[path] else []
  }

  /** md5sum(path): the lowercase hex digest of the file, two characters
      per byte of the hash, or an error exactly when the file cannot be
      opened. */
  function Md5Sum(disk: map<Bytes, Bytes>, md5: Bytes -> Bytes, path: Bytes): (sum: Option<string>)
    ensures sum.Some? <==> path in disk
    ensures sum.Some? ==> |sum.value| == 2 * |md5(disk[path])|
  {
    if path in disk then Some(HexEncode(md5(disk[path]))) else None
  }

  /** The verdict closeSession prints: hashing the file succeeded and the
      result equals the digest recorded from the EOF packet. */
  predicate DigestMatches(disk: map<Bytes, Bytes>, md5: Bytes -> Bytes, path: Bytes, digest: string)
  {
    Md5Sum(disk, md5, path) == Some(digest)
  }

  /** Comparing hex strings is comparing digests: the verdict is positive
      exactly when the file exists and its hash is the digest the sender
      sent. */
  lemma DigestMatchesIff(disk: map<Bytes, Bytes>, md5: Bytes -> Bytes, path: Bytes, sent: Bytes)
    ensures DigestMatches(disk, md5, path, HexEncode(sent)) <==> path in disk && md5(disk[path]) == sent
  {
    if DigestMatches(disk, md5, path, HexEncode(sent)) {
      HexInjective(md5(disk[path]), sent);
    }
  }

  /** A file that never received an EOF packet keeps the empty digest, which
      the hex form of a non-empty hash never equals. */
  lemma NoEofNoMatch(disk: map<Bytes, Bytes>, md5: Bytes -> Bytes, path: Bytes)
    requires path in disk ==> |md5(disk[path])| > 0
    ensures !DigestMatches(disk, md5, path, "")
  {
  }

  // ------------------------------------------------------- detaching sessions

  /** closeSession's bookkeeping on one file: the session leaves the set,
      and the file is finalized when that leaves the set empty and the file
      was not finalized before. Returns the new set, the new `closed` flag
      and whether this call finalized. Finalizing happens exactly when the
      last session leaves a file that is not closed, and a closed file stays
      closed. */
  function Detach<T>(sessions: set<T>, closed: bool, s: T): (r: (set<T>, bool, bool))
    ensures s !in r.0 && r.0 <= sessions && sessions - r.0 <= {s}
    ensures r.2 <==> !closed && sessions <= {s}
    ensures r.1 <==> closed || r.2
  {
    var rest := sessions - {s};
    var finalize := rest == {} && !closed;
    (rest, closed || finalize, finalize)
  }

  /** How many times the file is finalized when the sessions in `order`
      detach one after the other. */
  function Finalizations<T>(sessions: set<T>, closed: bool, order: seq<T>): nat
    decreases |order|
  {
    if order == [] then 0
    else
      var (rest, closed', finalized) := Detach(sessions, closed, order[0]);
      (if finalized then 1 else 0) + Finalizations(rest, closed', order[1..])
  }

  /** Whatever the order in which sessions detach, a file is finalized at
      most once, and never again once it is closed. */
  lemma {:induction false} AtMostOnce<T>(sessions: set<T>, closed: bool, order: seq<T>)
    ensures Finalizations(sessions, closed, order) <= if closed then 0 else 1
    decreases |order|
  {
    if order != [] {
      var (rest, closed', finalized) := Detach(sessions, closed, order[0]);
      AtMostOnce(rest, closed', order[1..]);
    }
  }

  /** When every attached session detaches (and at least one detach
      happens), a file that is not closed is finalized exactly once. */
  lemma {:induction false} ExactlyOnce<T>(sessions: set<T>, closed: bool, order: seq<T>)
    requires !closed && order != []
    requires forall s | s in sessions :: s in order
    ensures Finalizations(sessions, closed, order) == 1
    decreases |order|
  {
    var (rest, closed', finalized) := Detach(sessions, closed, order[0]);
    if finalized {
      AtMostOnce(rest, closed', order[1..]);
    } else {
      assert rest != {};
      var x :| x in rest;
      assert x in order[1..] by {
        assert x in order && x != order[0];
      }
      forall s | s in rest
        ensures s in order[1..]
      {
        assert s in order && s != order[0];
      }
      ExactlyOnce(rest, closed', order[1..]);
    }
  }

  // ------------------------------------------------------------------ state

  /** How closeSession ends: the file stays open for other sessions, or this
      was the last session and the file was finalized, with the verdict of
      the digest check. */
  datatype Finalization = Kept | Finalized(digestOk: bool)

  /** A file being received. `metadata` is the metadata object of the
      session that created the entry (shared, not copied), and `path` is the
      name the file was opened under. */
  class TransferFile {
    var metadata: FileMetadata
    const path: Bytes
    var handleOpen: bool
    var sessions: set<TransferSession>
    var digest: string
    var closed: bool

    constructor (metadata: FileMetadata)
      ensures this.metadata == metadata && path == metadata.name
      ensures handleOpen && sessions == {} && digest == "" && !closed
    {
      this.metadata := metadata;
      path := metadata.name;
      handleOpen := true;
      sessions := {};
      digest := "";
      closed := false;
    }
  }

  /** The receiver. The file system is the map `disk` from names to
      contents; whether a name can be opened for writing is the oracle
      `creatable`, and `md5` is the hash function. */
  class Server {
    var files: map<Bytes, TransferFile>
    var disk: map<Bytes, Bytes>
    const creatable: Bytes -> bool
    const md5: Bytes -> Bytes

    /** NewServer: an empty registry. */
    constructor (disk: map<Bytes, Bytes>, creatable: Bytes -> bool, md5: Bytes -> Bytes)
      ensures files == map[] && this.disk == disk
      ensures this.creatable == creatable && this.md5 == md5
    {
      files := map[];
      this.disk := disk;
      this.creatable := creatable;
      this.md5 := md5;
    }
  }

  /** One connection's view of the receiver. */
  class TransferSession {
    const server: Server
    var file: TransferFile?

    constructor (server: Server)
      ensures this.server == server && file == null
    {
      this.server := server;
      file := null;
    }

    /** The session's file, once it has one, is in the registry. */
    predicate Attached()
      reads this, server
    {
      file == null || file in server.files.Values
    }

    /** handleFileMetadata: get or create the registry entry for the name,
        then attach this session to it. Creating means opening the name for
        writing (creating it on disk, keeping what it held) and resizing it
        to the announced total size; if either step fails the session is not
        attached and the registry is left as it was. */
    method HandleFileMetadata(metadata: FileMetadata)
      modifies this, server, if metadata.name in server.files then {server.files[metadata.name]} else {}
      ensures MetadataHandled(this, metadata)
      ensures old(Attached()) ==> Attached()
      ensures RegistryGrows(server) && RegistryExtends(server)
    {
      var name := metadata.name;
      var file: TransferFile;
      if name in server.files {
        file := server.files[name];
        assert file in server.files.Values;
      } else {
        if !server.creatable(name) {
          return;
        }
        var existing := Content(server.disk, name);
        server.disk := server.disk[name := existing];
        if metadata.totalSize < 0 {
          return;
        }
        server.disk := server.disk[name := Sink.Truncate(existing, metadata.totalSize)];
        file := new TransferFile(metadata);
        server.files := server.files[name := file];
        UpdateValues(old(server.files), name, file);
      }
      file.sessions := file.sessions + {this};
      this.file := file;
    }

    /** handleBlock: write the block's data at offset blockSize * index,
        computed in int64 with the block size of the file's metadata. The
        write's error is discarded: a closed file or a negative offset leaves
        the disk as it was. */
    method HandleBlock(block: BlockInfo)
      requires file != null && DataInBuffer(block.Fields())
      modifies server
      ensures BlockHandled(this, block.Fields())
    {
      var offset := ToInt64(file.metadata.blockSize * block.blockIndex);
      if file.handleOpen && offset >= 0 {
        server.disk := server.disk[file.path := Sink.WriteAt(Content(server.disk, file.path), offset, GetData(block.Fields()))];
      }
    }

    /** closeSession: detach from the file; the last session out finalizes
        it (closes it, marks it closed, removes the entry named by the
        file's current metadata name, and checks the digest). The source
        dereferences `session.file`, so a session that never attached
        crashes here. */
    method CloseSession() returns (fin: Finalization)
      requires file != null
      modifies file, server
      ensures SessionClosed(this, file, fin)
    {
      var f := file;
      f.sessions := f.sessions - {this};
      if f.sessions == {} && !f.closed {
        f.handleOpen := false;
        f.closed := true;
        server.files := server.files - {f.metadata.name};
        fin := Finalized(DigestMatches(server.disk, server.md5, f.metadata.name, f.digest));
      } else {
        fin := Kept;
      }
    }
  }

  /** The registry only gained files: every entry was there before or is
      new. */
  twostate predicate RegistryGrows(server: Server)
    reads server
  {
    forall f | f in server.files.Values :: f in old(server.files.Values) || fresh(f)
  }

  /** The registry only gained entries: every name keeps the file it had,
      and every new name holds a new file. */
  twostate predicate RegistryExtends(server: Server)
    reads server
  {
    && (forall k | k in old(server.files) :: k in server.files && server.files[k] == old(server.files[k]))
    && (forall k | k in server.files && k !in old(server.files) :: fresh(server.files[k]))
  }

  lemma UpdateValues<K, V>(m: map<K, V>, k: K, v: V)
    ensures v in m[k := v].Values
    ensures forall x | x in m[k := v].Values :: x == v || x in m.Values
  {
    assert m[k := v][k] == v;
    forall x | x in m[k := v].Values
      ensures x == v || x in m.Values
    {
      var j :| j in m[k := v] && m[k := v][j] == x;
      if j != k {
        assert m[j] == x;
      }
    }
  }

  // ------------------------------------------------------ handler effects

  /** The effect of handleFileMetadata. An existing entry only gains the
      session; a new name either fails to open (nothing changes), fails to
      be resized because the size is negative (the file exists on disk, but
      nothing else changes), or becomes exactly one new entry: a fresh file
      sharing the metadata object, with only this session, not closed, on
      disk at the announced size with its old bytes kept. */
  twostate predicate MetadataHandled(session: TransferSession, metadata: FileMetadata): (r: bool)
    reads session, session.server, metadata, if session.file == null then {} else {session.file}
    ensures r ==> old(session.server.files).Keys <= session.server.files.Keys
    ensures r ==> (metadata.name in session.server.files <==>
                   metadata.name in old(session.server.files) || (session.server.creatable(metadata.name) && metadata.totalSize >= 0))
  {
    var server := session.server;
    var name := metadata.name;
    if name in old(server.files) then
      var f := old(server.files[name]);
      && session.file == f
      && f.sessions == old(f.sessions) + {session}
      && f.metadata == old(f.metadata) && f.closed == old(f.closed)
      && f.handleOpen == old(f.handleOpen) && f.digest == old(f.digest)
      && server.files == old(server.files)
      && server.disk == old(server.disk)
    else if !server.creatable(name) then
      && session.file == old(session.file)
      && server.files == old(server.files)
      && server.disk == old(server.disk)
    else if metadata.totalSize < 0 then
      && session.file == old(session.file)
      && server.files == old(server.files)
      && server.disk == old(server.disk)[name := Content(old(server.disk), name)]
    else
      var f := session.file;
      && f != null && fresh(f)
      && f.metadata == metadata && f.path == name
      && f.sessions == {session} && f.handleOpen && !f.closed && f.digest == ""
      && server.files == old(server.files)[name := f]
      && server.disk == old(server.disk)[name := Sink.Truncate(Content(old(server.disk), name), metadata.totalSize)]
  }

  /** The effect of handleBlock on the disk: the block's data written at its
      offset in the session's file, when the file is open and the offset is
      not negative. */
  twostate predicate BlockHandled(session: TransferSession, b: BlockFields): (r: bool)
    requires session.file != null && DataInBuffer(b)
    reads session, session.server, session.file, session.file.metadata
    ensures r ==> forall p | p != session.file.path :: Content(session.server.disk, p) == Content(old(session.server.disk), p)
  {
    var server := session.server;
    var f := session.file;
    var offset := ToInt64(f.metadata.blockSize * b.blockIndex);
    && server.files == old(server.files)
    && server.disk == if f.handleOpen && offset >= 0
                      then old(server.disk)[f.path := Sink.WriteAt(Content(old(server.disk), f.path), offset, GetData(b))]
                      else old(server.disk)
  }

  /** The effect of closeSession: exactly this session leaves its file's
      set, `Detach` decides finalization, and finalizing closes the file,
      removes the entry under the file's current name and reports the
      digest verdict. */
  twostate predicate SessionClosed(session: TransferSession, f: TransferFile, fin: Finalization): (r: bool)
    requires old(allocated(f))
    reads session, session.server, f, f.metadata
    ensures r ==> session !in f.sessions
    ensures r ==> (fin.Finalized? <==> !old(f.closed) && old(f.sessions) <= {session})
    ensures r ==> old(f.closed) ==> f.closed && !fin.Finalized?
  {
    var server := session.server;
    && session.file == f
    && (f.sessions, f.closed, fin.Finalized?) == Detach(old(f.sessions), old(f.closed), session)
    && f.digest == old(f.digest) && f.metadata == old(f.metadata)
    && server.disk == old(server.disk)
    && (fin.Finalized? ==>
          && !f.handleOpen
          && server.files == old(server.files) - {f.metadata.name}
          && fin.digestOk == DigestMatches(server.disk, server.md5, f.metadata.name, f.digest))
    && (!fin.Finalized? ==> f.handleOpen == old(f.handleOpen) && server.files == old(server.files))
  }
}
