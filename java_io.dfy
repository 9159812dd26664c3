/** The parts of java.io that the core relies on, reduced to what it observes:
    a file is a snapshot of its path's state, an input stream is the file's
    bytes with a cursor, an output stream is the bytes written so far.

    `unreadableAt` is the offset of a byte the device cannot deliver; a read
    that would cover it raises IOException.  This is how the model lets the
    I/O failure paths of the core happen. */
module JavaIo {
  import opened Wrappers

  datatype File = File(
    path: string,
    present: bool,
    canRead: bool,
    contents: seq<bv8>,
    unreadableAt: Option<nat>)
  {
    /** File.length(): the byte count, and 0 for a file that does not exist
        (`present` is File.exists()). */
    function Length(): (n: nat)
      ensures present ==> n == |contents|
      ensures !present ==> n == 0
    {
      if present then |contents| else 0
    }
  }

  /** What one call of InputStream.read(byte[n]) returns: the bytes it put in
      the buffer (their count is read's int result), or -1 at end of stream. */
  datatype ReadResult = Bytes(bytes: seq<bv8>) | EndOfStream

  /** The result of read(byte[n]) on a stream over `data` positioned at `pos`. */
  function ReadOutcome(data: seq<bv8>, unreadableAt: Option<nat>, closed: bool, pos: nat, n: nat): (r: Result<ReadResult>)
    requires pos <= |data|
    ensures r.Success? && r.value.Bytes? ==>
              |r.value.bytes| <= n && pos + |r.value.bytes| <= |data| && r.value.bytes == data[pos..pos + |r.value.bytes|]
    ensures r.Success? && r.value.Bytes? && n > 0 ==> |r.value.bytes| > 0
    ensures r == Success(EndOfStream) <==> !closed && n > 0 && pos == |data|
  {
    if closed then Failure(IOException)
    else if n == 0 then Success(Bytes([]))
    else if pos == |data| then Success(EndOfStream)
    else
      var k := Min(n, |data| - pos);
      if unreadableAt.Some? && pos <= unreadableAt.value < pos + k then Failure(IOException)
      else Success(Bytes(data[pos..pos + k]))
  }

  class InputStream {
    const data: seq<bv8>
    const unreadableAt: Option<nat>
    var pos: nat
    var closed: bool

    ghost predicate Valid()
      reads this
    {
      pos <= |data|
    }

    /** A stream freshly opened on a readable file. */
    constructor Open(file: File)
      ensures Valid()
      ensures data == file.contents && unreadableAt == file.unreadableAt
      ensures pos == 0 && !closed
    {
      data := file.contents;
      unreadableAt := file.unreadableAt;
      pos := 0;
      closed := false;
    }

    /** read(byte[n]): at most n bytes from the cursor on, -1 at the end. */
    method Read(n: nat) returns (r: Result<ReadResult>)
      requires Valid()
      modifies this
      ensures Valid() && closed == old(closed)
      ensures r == ReadOutcome(data, unreadableAt, old(closed), old(pos), n)
      ensures pos == old(pos) + (if r.Success? && r.value.Bytes? then |r.value.bytes| else 0)
    {
      r := ReadOutcome(data, unreadableAt, closed, pos, n);
      if r.Success? && r.value.Bytes? {
        pos := pos + |r.value.bytes|;
      }
    }

    /** skip(n): moves the cursor forward by at most n bytes, never past the
        end, and answers how far it moved. */
    method Skip(n: int) returns (r: Result<int>)
      requires Valid()
      modifies this
      ensures Valid() && closed == old(closed)
      ensures old(closed) ==> r == Failure(IOException) && pos == old(pos)
      ensures !old(closed) ==> r == Success(if n <= 0 then 0 else Min(n, |data| - old(pos)))
      ensures !old(closed) ==> pos == old(pos) + r.value
    {
      if closed {
        r := Failure(IOException);
      } else {
        var k := if n <= 0 then 0 else Min(n, |data| - pos);
        pos := pos + k;
        r := Success(k);
      }
    }

    method Close()
      modifies this
      ensures closed && pos == old(pos)
    {
      closed := true;
    }
  }

  /** StreamFactory.openInputStream: a fresh stream, or null when the file
      cannot be opened (FileNotFoundException is swallowed there). */
  method OpenInputStream(file: File) returns (s: InputStream?)
    ensures file.present && file.canRead ==> s != null && fresh(s) && s.Valid()
    ensures file.present && file.canRead ==> s.data == file.contents && s.unreadableAt == file.unreadableAt
    ensures file.present && file.canRead ==> s.pos == 0 && !s.closed
    ensures !(file.present && file.canRead) ==> s == null
  {
    if file.present && file.canRead {
      s := new InputStream.Open(file);
    } else {
      s := null;
    }
  }

  class OutputStream {
    var written: seq<bv8>
    var closed: bool

    constructor ()
      ensures written == [] && !closed
    {
      written := [];
      closed := false;
    }

    method Write(bytes: seq<bv8>)
      modifies this
      ensures written == old(written) + bytes && closed == old(closed)
    {
      written := written + bytes;
    }

    method Close()
      modifies this
      ensures closed && written == old(written)
    {
      closed := true;
    }
  }
}
