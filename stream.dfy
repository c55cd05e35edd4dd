/** The byte streams the codec reads from and writes to: a connection (or the
    sender's source file) seen as the bytes it will deliver plus a cursor, and
    a connection seen as the bytes written to it so far. */
module Stream {
  import opened Bytes

  /** What one `io.ReadFull` call returns: the bytes it obtained, the cursor
      after it, and whether it filled the whole buffer. */
  datatype Chunk = Chunk(bytes: Bytes, pos: nat, ok: bool)

  /** `io.ReadFull` asking for n bytes at cursor pos of stream s. A stream that
      ends early yields what is left (and the cursor reaches the end); asking
      for zero bytes always succeeds, even at the end of the stream. */
  function ReadFullAt(s: Bytes, pos: nat, n: nat): (c: Chunk)
    requires pos <= |s|
    ensures pos <= c.pos <= |s|
    ensures c.ok <==> pos + n <= |s|
    ensures c.ok ==> |c.bytes| == n && c.pos == pos + n
    ensures !c.ok ==> |c.bytes| < n && c.pos == |s|
    ensures c.bytes == s[pos..c.pos]
  {
    if pos + n <= |s| then Chunk(s[pos..pos + n], pos + n, true)
    else Chunk(s[pos..], |s|, false)
  }

  /** Reading at cursor pos + q of s is reading at cursor q of what s holds
      from pos on. */
  lemma ReadFullShift(s: Bytes, pos: nat, q: nat, n: nat)
    requires pos + q <= |s|
    ensures var d := ReadFullAt(s[pos..], q, n);
      ReadFullAt(s, pos + q, n) == Chunk(d.bytes, pos + d.pos, d.ok)
  {
    var d := ReadFullAt(s[pos..], q, n);
    assert s[pos..][q..d.pos] == s[pos + q..pos + d.pos];
  }

  /** A readable byte stream: a connection whose remaining bytes are `data`
      from `pos` on. */
  class Reader {
    const data: Bytes
    var pos: nat

    ghost predicate Valid()
      reads this
    {
      pos <= |data|
    }

    constructor (data: Bytes)
      ensures Valid() && this.data == data && pos == 0
    {
      this.data := data;
      pos := 0;
    }

    /** `io.ReadFull(reader, make([]byte, n))`; `binary.Read` of an n-byte
        field behaves the same way. */
    method ReadFull(n: nat) returns (buf: Bytes, ok: bool)
      requires Valid()
      modifies this
      ensures Valid()
      ensures Chunk(buf, pos, ok) == ReadFullAt(data, old(pos), n)
    {
      if pos + n <= |data| {
        buf, ok := data[pos..pos + n], true;
        pos := pos + n;
      } else {
        buf, ok := data[pos..], false;
        pos := |data|;
      }
    }
  }

  /** A writable byte stream: everything written to the connection so far.
      Write errors are not reported to the callers in the source (they are
      discarded), so this writer accepts every byte. */
  class Writer {
    var written: Bytes

    constructor ()
      ensures written == []
    {
      written := [];
    }

    method Write(bs: Bytes)
      modifies this
      ensures written == old(written) + bs
    {
      written := written + bs;
    }
  }
}
