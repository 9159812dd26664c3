/** combination/GoodCombinationWriter.java: writes a combination out as one
    file, part by part, each part copied from the input stream cached for
    its file index.  What a write produces is first specified as functions
    of the streams' contents and cursors, then the writer class is proved
    against those functions. */
module Writing {
  import opened Wrappers
  import opened JavaIo
  import opened Combination
  import Extraction

  /** The size of the buffer of each read. */
  const BUFFER_LENGTH: int := 1024 * 1024

  /** What copying did: the bytes written to the output, where the input
      stream's cursor was left, and whether an IOException was raised. */
  datatype Copy = Copy(bytes: seq<bv8>, pos: nat, failed: bool)

  /** copyBuffer(n): one read(byte[n]) at `pos`; whatever it read is
      written, nothing at the end of the stream. */
  function ReadOnce(s: InputStream, closed: bool, pos: nat, n: nat): (c: Copy)
    requires pos <= |s.data|
    ensures pos <= c.pos <= |s.data| && c.pos == pos + |c.bytes|
  {
    match ReadOutcome(s.data, s.unreadableAt, closed, pos, n)
    case Failure(_) => Copy([], pos, true)
    case Success(EndOfStream) => Copy([], pos, false)
    case Success(Bytes(b)) => Copy(b, pos + |b|, false)
  }

  /** copyDataFromPosition for a large part: BUFFER_LENGTH reads until read
      answers -1, so the copy runs to the end of the stream, not to the
      part's end. */
  function ReadToEnd(s: InputStream, closed: bool, pos: nat): (c: Copy)
    requires pos <= |s.data|
    decreases |s.data| - pos
    ensures pos <= c.pos <= |s.data| && c.pos == pos + |c.bytes|
  {
    var first := ReadOnce(s, closed, pos, BUFFER_LENGTH);
    if first.failed || first.bytes == [] then first
    else
      var rest := ReadToEnd(s, closed, first.pos);
      Copy(first.bytes + rest.bytes, rest.pos, rest.failed)
  }

  /** copyDataFromPosition with the stream at `pos`: the position it
      compares is the part's start and never moves, so a part shorter than
      a buffer is one read of its length and any other part is copied to
      the end of the stream. */
  function Drain(s: InputStream, closed: bool, pos: nat, part: GoodCombinationPart): (c: Copy)
    requires pos <= |s.data| && part.IsValid()
    ensures pos <= c.pos <= |s.data| && c.pos == pos + |c.bytes|
  {
    if part.startOffset + BUFFER_LENGTH > part.endOffset then ReadOnce(s, closed, pos, part.Length())
    else ReadToEnd(s, closed, pos)
  }

  /** copyData on a stream at `pos`: skip(startOffset), which must skip
      that many bytes or IOException is raised, then the copy.  The skip
      is relative to wherever the stream already is. */
  function CopyPart(s: InputStream, closed: bool, pos: nat, part: GoodCombinationPart): (c: Copy)
    requires pos <= |s.data| && part.IsValid()
    ensures c.pos <= |s.data|
  {
    if closed then Copy([], pos, true)
    else
      var skipped := Min(part.startOffset, |s.data| - pos);
      if skipped != part.startOffset then Copy([], pos + skipped, true)
      else Drain(s, false, pos + part.startOffset, part)
  }

  /** One read takes the bytes at the cursor: as many as asked for and
      left, unless it fails, and nothing from a closed stream. */
  lemma ReadOnceTakes(s: InputStream, closed: bool, pos: nat, n: nat)
    requires pos <= |s.data|
    ensures var c := ReadOnce(s, closed, pos, n);
            c.bytes == s.data[pos..c.pos] &&
            (!c.failed && n > 0 ==> c.pos == pos + Min(n, |s.data| - pos)) &&
            (closed ==> c.failed && c.bytes == [])
  {
  }

  /** Reading to the end takes the bytes from the cursor on, and gets to
      the end of the stream unless a read fails. */
  lemma {:induction false} ReadToEndTakes(s: InputStream, closed: bool, pos: nat)
    requires pos <= |s.data|
    decreases |s.data| - pos
    ensures var c := ReadToEnd(s, closed, pos);
            c.bytes == s.data[pos..c.pos] && (!c.failed ==> c.pos == |s.data|)
  {
    ReadOnceTakes(s, closed, pos, BUFFER_LENGTH);
    var first := ReadOnce(s, closed, pos, BUFFER_LENGTH);
    if !(first.failed || first.bytes == []) {
      ReadToEndTakes(s, closed, first.pos);
    }
  }

  /** A part's copy is bytes of the stream from `pos` plus the start
      offset on; nothing is copied from a closed stream or when the skip
      runs past the end. */
  lemma CopyPartTakes(s: InputStream, closed: bool, pos: nat, part: GoodCombinationPart)
    requires pos <= |s.data| && part.IsValid()
    ensures var c := CopyPart(s, closed, pos, part);
            (c.bytes == [] || (pos + part.startOffset <= c.pos && c.bytes == s.data[pos + part.startOffset..c.pos])) &&
            (!c.failed ==> pos + part.startOffset <= c.pos) &&
            (closed || pos + part.startOffset > |s.data| ==> c.failed && c.bytes == [])
  {
    if !closed && pos + part.startOffset <= |s.data| {
      if part.startOffset + BUFFER_LENGTH > part.endOffset {
        ReadOnceTakes(s, false, pos + part.startOffset, part.Length());
      } else {
        ReadToEndTakes(s, false, pos + part.startOffset);
      }
    }
  }

  /** Writing two adjacent slices writes the slice that spans both. */
  lemma SliceJoin(out: seq<bv8>, data: seq<bv8>, a: nat, b: nat, c: nat)
    requires a <= b <= c <= |data|
    ensures out + data[a..b] + data[b..c] == out + data[a..c]
  {
    assert data[a..b] + data[b..c] == data[a..c];
  }

  /** What copyDataFromPosition writes is the bytes from the cursor to
      where it leaves the stream. */
  lemma DrainTakes(s: InputStream, closed: bool, pos: nat, part: GoodCombinationPart)
    requires pos <= |s.data| && part.IsValid()
    ensures Drain(s, closed, pos, part).bytes == s.data[pos..Drain(s, closed, pos, part).pos]
  {
    if part.startOffset + BUFFER_LENGTH > part.endOffset {
      ReadOnceTakes(s, closed, pos, part.Length());
    } else {
      ReadToEndTakes(s, closed, pos);
    }
  }

  /** The cursor of an input stream. */
  datatype Cursor = Cursor(pos: nat, closed: bool)

  /** The cursors of the cached streams. */
  ghost function Cursors(streams: map<int, InputStream?>): (at: map<InputStream, Cursor>)
    reads StreamSet(streams)
    ensures at.Keys == StreamSet(streams)
    ensures forall s :: s in at ==> at[s] == Cursor(s.pos, s.closed)
  {
    map s | s in StreamSet(streams) :: Cursor(s.pos, s.closed)
  }

  /** Every cached stream is within its data. */
  ghost predicate Ready(streams: map<int, InputStream?>)
    reads StreamSet(streams)
  {
    forall s :: s in StreamSet(streams) ==> s.Valid()
  }

  /** What writing did: the bytes written, the cursors afterwards and the
      exception that ended it, if any. */
  datatype Written = Written(bytes: seq<bv8>, at: map<InputStream, Cursor>, outcome: Result<()>)

  /** writeItem: the part is copied from the stream cached for its index,
      at its cursor in `at`; a missing or null stream is dereferenced,
      NullPointerException.  The cursors the writer passes (Cursors) hold
      every cached stream, within its data; a stream without such a cursor
      is taken as one that cannot be read. */
  function WriteOne(part: GoodCombinationPart, streams: map<int, InputStream?>, at: map<InputStream, Cursor>): (w: Written)
    requires part.IsValid()
    ensures w.outcome.Failure? ==> w.outcome.error == IOException || w.outcome.error == NullPointerException
    ensures part.streamIndex !in streams || streams[part.streamIndex] == null ==>
              w == Written([], at, Failure(NullPointerException))
  {
    if part.streamIndex !in streams || streams[part.streamIndex] == null then
      Written([], at, Failure(NullPointerException))
    else if streams[part.streamIndex] !in at || at[streams[part.streamIndex]].pos > |streams[part.streamIndex].data| then
      Written([], at, Failure(IOException))
    else
      var s := streams[part.streamIndex];
      var c := CopyPart(s, at[s].closed, at[s].pos, part);
      Written(c.bytes, at[s := Cursor(c.pos, at[s].closed)], if c.failed then Failure(IOException) else Success(()))
  }

  /** writeParts from the i-th part on, onto an output holding `out`: the
      parts in list order, stopping at the first exception; `bytes` of the
      result is what the output holds afterwards. */
  function WriteAll(parts: seq<GoodCombinationPart>, i: nat, streams: map<int, InputStream?>,
                    at: map<InputStream, Cursor>, out: seq<bv8>): (w: Written)
    requires forall p :: p in parts ==> p.IsValid()
    requires i <= |parts|
    decreases |parts| - i
    ensures |out| <= |w.bytes| && w.bytes[..|out|] == out
    ensures w.outcome.Failure? ==> w.outcome.error == IOException || w.outcome.error == NullPointerException
  {
    if i == |parts| then Written(out, at, Success(()))
    else
      var first := WriteOne(parts[i], streams, at);
      if first.outcome.Failure? then Written(out + first.bytes, first.at, first.outcome)
      else WriteAll(parts, i + 1, streams, first.at, out + first.bytes)
  }

  /** The bytes the parts cover, end offsets included; defined from the
      back, as getOutputFilesTotalLength adds them up. */
  function Covered(parts: seq<GoodCombinationPart>): (n: int)
  {
    if parts == [] then 0 else Covered(parts[..|parts| - 1]) + parts[|parts| - 1].Length()
  }

  /** Ranges that follow one another from byte 0 cover everything up to the
      last one's end: getOutputFilesTotalLength is that end offset. */
  lemma {:induction false} ContiguousCovered(parts: seq<GoodCombinationPart>)
    requires parts != [] && Extraction.Contiguous(parts, 0)
    ensures Covered(parts) == parts[|parts| - 1].endOffset + 1
  {
    if |parts| > 1 {
      var front := parts[..|parts| - 1];
      assert Extraction.Contiguous(front, 0) by {
        forall i | 0 < i < |front|
          ensures front[i].startOffset == front[i - 1].endOffset + 1
        {
          assert front[i] == parts[i] && front[i - 1] == parts[i - 1];
        }
      }
      ContiguousCovered(front);
      assert parts[|parts| - 1].startOffset == parts[|parts| - 2].endOffset + 1;
    }
  }

  /** A part shorter than a buffer, lying in an open stream at `pos` with
      no unreadable byte in it, is copied exactly: skip moves the stream
      start bytes on from where it is, then one read takes the part.  A
      part whose end offset is the stream's length (the extractor's last
      range) gets the bytes up to the end, one fewer than its length. */
  lemma SmallPartCopied(s: InputStream, pos: nat, part: GoodCombinationPart)
    requires part.IsValid() && part.startOffset + BUFFER_LENGTH > part.endOffset
    requires pos + part.endOffset <= |s.data|
    requires s.unreadableAt.Some? ==> !(pos + part.startOffset <= s.unreadableAt.value <= pos + part.endOffset)
    ensures var stop := Min(pos + part.endOffset + 1, |s.data|);
            CopyPart(s, false, pos, part) == Copy(s.data[pos + part.startOffset..stop], stop, false)
  {
  }

  /** Reading to the end copies every byte from `pos` on when none of them
      is unreadable. */
  lemma {:induction false} ReadToEndCopiesRest(s: InputStream, pos: nat)
    requires pos <= |s.data|
    requires s.unreadableAt.Some? ==> s.unreadableAt.value < pos
    decreases |s.data| - pos
    ensures ReadToEnd(s, false, pos) == Copy(s.data[pos..], |s.data|, false)
  {
    var first := ReadOnce(s, false, pos, BUFFER_LENGTH);
    if !first.failed && first.bytes != [] {
      ReadToEndCopiesRest(s, first.pos);
    }
  }

  /** A part of BUFFER_LENGTH bytes or more is copied from its start to the
      end of the stream, whatever its end offset says. */
  lemma LargePartCopiedToEnd(s: InputStream, pos: nat, part: GoodCombinationPart)
    requires part.IsValid() && part.startOffset + BUFFER_LENGTH <= part.endOffset
    requires pos + part.startOffset <= |s.data|
    requires s.unreadableAt.Some? ==> s.unreadableAt.value < pos + part.startOffset
    ensures CopyPart(s, false, pos, part) == Copy(s.data[pos + part.startOffset..], |s.data|, false)
  {
    ReadToEndCopiesRest(s, pos + part.startOffset);
  }

  /** A second part from the same stream is skipped to relative to where
      the first part's copy left the stream, not to its own start offset. */
  lemma SameStreamRelative(p: GoodCombinationPart, q: GoodCombinationPart, s: InputStream, streams: map<int, InputStream?>,
                           at: map<InputStream, Cursor>)
    requires p.IsValid() && q.IsValid() && s in at && at[s].pos <= |s.data|
    requires p.streamIndex in streams && q.streamIndex in streams
    requires streams[p.streamIndex] == s && streams[q.streamIndex] == s
    ensures var first := CopyPart(s, at[s].closed, at[s].pos, p);
            WriteOne(q, streams, WriteOne(p, streams, at).at).bytes == CopyPart(s, at[s].closed, first.pos, q).bytes
  {
  }

  /** A valid part whose stream is cached and holds the part, up to an end
      offset at most the stream's length, as the extractor's last range
      has. */
  predicate InFile(part: GoodCombinationPart, streams: map<int, InputStream?>)
  {
    part.IsValid() && part.streamIndex in streams && streams[part.streamIndex] != null &&
    part.endOffset <= |streams[part.streamIndex].data|
  }

  /** A part in its file, whose stream is open at byte 0 and readable
      across the part, and which fits in one buffer. */
  predicate FreshSmall(part: GoodCombinationPart, streams: map<int, InputStream?>, at: map<InputStream, Cursor>)
  {
    InFile(part, streams) && part.startOffset + BUFFER_LENGTH > part.endOffset &&
    streams[part.streamIndex] in at && at[streams[part.streamIndex]] == Cursor(0, false) &&
    (streams[part.streamIndex].unreadableAt.Some? ==>
       !(part.startOffset <= streams[part.streamIndex].unreadableAt.value <= part.endOffset))
  }

  /** Parts i.. read from pairwise different streams. */
  predicate Separate(parts: seq<GoodCombinationPart>, i: nat, streams: map<int, InputStream?>)
  {
    forall j, k :: i <= j < k < |parts| && parts[j].streamIndex in streams && parts[k].streamIndex in streams ==>
      streams[parts[j].streamIndex] != streams[parts[k].streamIndex]
  }

  /** The bytes parts i.. designate: each part's range of its own file,
      cut at the end of the file. */
  function Designated(parts: seq<GoodCombinationPart>, i: nat, streams: map<int, InputStream?>): (b: seq<bv8>)
    requires i <= |parts|
    requires forall j :: i <= j < |parts| ==> InFile(parts[j], streams)
    decreases |parts| - i
  {
    if i == |parts| then []
    else
      var p := parts[i];
      assert InFile(p, streams);
      var data := streams[p.streamIndex].data;
      data[p.startOffset..Min(p.endOffset + 1, |data|)] + Designated(parts, i + 1, streams)
  }

  lemma AppendAssoc(a: seq<bv8>, b: seq<bv8>, c: seq<bv8>)
    ensures a + b + c == a + (b + c)
  {
  }

  /** A fresh small part is written exactly, and leaves its stream just
      after the part. */
  lemma FreshSmallWritten(p: GoodCombinationPart, streams: map<int, InputStream?>, at: map<InputStream, Cursor>)
    requires FreshSmall(p, streams, at)
    ensures var s := streams[p.streamIndex];
            var stop := Min(p.endOffset + 1, |s.data|);
            WriteOne(p, streams, at) == Written(s.data[p.startOffset..stop], at[s := Cursor(stop, false)], Success(()))
  {
    SmallPartCopied(streams[p.streamIndex], 0, p);
  }

  /** When every part comes from a stream of its own, freshly opened, and
      fits in one buffer, writing appends exactly the bytes the parts
      designate and succeeds; a last range ending at its file's length
      is included. */
  lemma {:induction false} SeparateSmallPartsWritten(parts: seq<GoodCombinationPart>, i: nat, streams: map<int, InputStream?>,
                                                     at: map<InputStream, Cursor>, out: seq<bv8>)
    requires forall p :: p in parts ==> p.IsValid()
    requires i <= |parts| && Separate(parts, i, streams)
    requires forall j :: i <= j < |parts| ==> FreshSmall(parts[j], streams, at)
    decreases |parts| - i
    ensures forall j :: i <= j < |parts| ==> InFile(parts[j], streams)
    ensures WriteAll(parts, i, streams, at, out).outcome == Success(())
    ensures WriteAll(parts, i, streams, at, out).bytes == out + Designated(parts, i, streams)
  {
    if i < |parts| {
      var p := parts[i];
      assert FreshSmall(p, streams, at);
      var s := streams[p.streamIndex];
      FreshSmallWritten(p, streams, at);
      var stop := Min(p.endOffset + 1, |s.data|);
      var next := at[s := Cursor(stop, false)];
      var b := s.data[p.startOffset..stop];
      forall j | i + 1 <= j < |parts|
        ensures FreshSmall(parts[j], streams, next)
      {
        assert FreshSmall(parts[j], streams, at);
        assert streams[parts[j].streamIndex] != s;
      }
      assert WriteAll(parts, i, streams, at, out) == WriteAll(parts, i + 1, streams, next, out + b);
      SeparateSmallPartsWritten(parts, i + 1, streams, next, out + b);
      AppendAssoc(out, b, Designated(parts, i + 1, streams));
    }
  }

  /** Every range an extraction keeps lies in the stream it caches for the
      range's file, as long as each file can still be opened and holds
      its recorded source length: the last range, which ends at that
      length, included.  So the writer lemmas above apply to what the
      extractor hands over. */
  lemma ExtractedRangesInFile(v: Extraction.View, ranges: seq<GoodCombinationPart>, streams: map<int, InputStream?>)
    requires Extraction.Shaped(v)
    requires Extraction.RangesFrom(v, 0, 0) == Success(Some(ranges))
    requires Extraction.Cache(v.files, streams) && streams.Keys == Extraction.Chosen(ranges)
    requires forall f :: 0 <= f < |v.files| ==>
               v.files[f].sourceFile.present && v.files[f].sourceFile.canRead &&
               |v.files[f].sourceFile.contents| == v.files[f].sourceFileLength
    ensures forall p :: p in Extraction.ValidOnly(ranges) ==> InFile(p, streams)
  {
    forall p | p in Extraction.ValidOnly(ranges)
      ensures InFile(p, streams)
    {
      var k :| 0 <= k < |ranges| && ranges[k] == p;
      Extraction.RangesFromRows(v, 0, 0, ranges, k);
      assert p.streamIndex in Extraction.Chosen(ranges);
      var f := v.files[p.streamIndex];
      assert Extraction.StreamFor(streams[p.streamIndex], f.sourceFile);
    }
  }

  class GoodCombinationWriter {
    const parts: GoodCombination
    var output: OutputStream?
    var input: InputStream?

    constructor (parts: GoodCombination)
      ensures this.parts == parts && output == null && input == null
    {
      this.parts := parts;
      output := null;
      input := null;
    }

    /** The parts are all valid, as GoodCombination.add keeps them, and
        every cached stream is within its data. */
    ghost predicate Writable()
      reads parts, StreamSet(parts.streams)
    {
      (forall p :: p in parts.parts ==> p.IsValid()) && Ready(parts.streams)
    }

    /** What writing the parts from the streams' present cursors onto an
        output holding `out` produces. */
    ghost function Planned(out: seq<bv8>): (w: Written)
      requires Writable()
      reads parts, StreamSet(parts.streams)
    {
      WriteAll(parts.parts, 0, parts.streams, Cursors(parts.streams), out)
    }

    /** writeCombination: every part written in order to `output`, which is
        closed and dropped afterwards whatever happened; true when all
        parts were written, false on IOException, and the
        NullPointerException of a part without a stream escapes. */
    method WriteCombination(output: OutputStream) returns (r: Result<bool>)
      requires Writable()
      modifies this, output, StreamSet(parts.streams)
      ensures this.output == null && output.closed
      ensures output.written == old(Planned(output.written)).bytes
      ensures Cursors(parts.streams) == old(Planned(output.written)).at
      ensures r == Success(true) <==> old(Planned(output.written)).outcome.Success?
      ensures r == Success(false) <==> old(Planned(output.written)).outcome == Failure(IOException)
      ensures r.Failure? ==> r.error == NullPointerException
    {
      this.output := output;
      var written := TryWriteFile(Cursors(parts.streams));
      match written
      case Success(_) => r := Success(true);
      case Failure(IOException) => r := Success(false);
      case Failure(UserCancellationException) => r := Success(false);
      case Failure(e) => r := Failure(e);
    }

    /** getOutputFilesTotalLength: the bytes the parts cover, less one. */
    method GetOutputFilesTotalLength() returns (length: int)
      ensures length == Covered(parts.parts) - 1
    {
      length := 0;
      var i := 0;
      while i < parts.Size()
        invariant 0 <= i <= |parts.parts|
        invariant length == Covered(parts.parts[..i])
      {
        var part := parts.Get(i).value;
        assert parts.parts[..i + 1][..i] == parts.parts[..i];
        length := length + part.endOffset - part.startOffset + 1;
        i := i + 1;
      }
      assert parts.parts[..i] == parts.parts;
      length := length - 1;
    }

    /** tryWriteFile: writeParts, then closeOutputStream in any case;
        `at` is where the cached streams are. */
    method TryWriteFile(ghost at: map<InputStream, Cursor>) returns (r: Result<()>)
      requires output != null && Writable() && Cursors(parts.streams) == at
      modifies this, output, StreamSet(parts.streams)
      ensures output == null && old(output).closed
      ensures old(output).written == WriteAll(parts.parts, 0, parts.streams, at, old(output.written)).bytes
      ensures Cursors(parts.streams) == WriteAll(parts.parts, 0, parts.streams, at, old(output.written)).at
      ensures r == WriteAll(parts.parts, 0, parts.streams, at, old(output.written)).outcome
    {
      r := WriteParts(at);
      CloseOutputStream();
    }

    /** writeParts: writeItem for each part in list order, from cursors
        `at`. */
    method WriteParts(ghost at: map<InputStream, Cursor>) returns (r: Result<()>)
      requires output != null && Writable() && Cursors(parts.streams) == at
      modifies this, output, StreamSet(parts.streams)
      ensures output == old(output)
      ensures output.written == WriteAll(parts.parts, 0, parts.streams, at, old(output.written)).bytes
      ensures Cursors(parts.streams) == WriteAll(parts.parts, 0, parts.streams, at, old(output.written)).at
      ensures r == WriteAll(parts.parts, 0, parts.streams, at, old(output.written)).outcome
    {
      ghost var whole := WriteAll(parts.parts, 0, parts.streams, at, output.written);
      ghost var now := at;
      var i := 0;
      while i < |parts.parts|
        invariant 0 <= i <= |parts.parts|
        invariant output == old(output) && Ready(parts.streams) && Cursors(parts.streams) == now
        invariant WriteAll(parts.parts, i, parts.streams, now, output.written) == whole
      {
        ghost var step := WriteOne(parts.parts[i], parts.streams, now);
        r := WriteItem(parts.parts[i], now);
        if r.Failure? {
          return;
        }
        now := step.at;
        i := i + 1;
      }
      r := Success(());
    }

    /** writeItem: the part copied from the stream cached for its index;
        `at` is where the cached streams are. */
    method WriteItem(part: GoodCombinationPart, ghost at: map<InputStream, Cursor>) returns (r: Result<()>)
      requires output != null && part.IsValid()
      requires Ready(parts.streams) && Cursors(parts.streams) == at
      modifies this, output, StreamSet(parts.streams)
      ensures output == old(output) && Ready(parts.streams)
      ensures output.written == old(output.written) + WriteOne(part, parts.streams, at).bytes
      ensures Cursors(parts.streams) == WriteOne(part, parts.streams, at).at
      ensures r == WriteOne(part, parts.streams, at).outcome
    {
      input := parts.GetStream(part.streamIndex);
      if input == null {
        return Failure(NullPointerException);
      }
      ghost var s := input;
      r := CopyData(part);
      assert Cursors(parts.streams) == at[s := Cursor(s.pos, s.closed)];
    }

    /** copyData: gotoStartPosition, then copyDataFromPosition. */
    method CopyData(item: GoodCombinationPart) returns (r: Result<()>)
      requires input != null && output != null && input.Valid() && item.IsValid()
      modifies input, output
      ensures input.Valid() && input.closed == old(input.closed)
      ensures output.written == old(output.written) + old(CopyPart(input, input.closed, input.pos, item)).bytes
      ensures input.pos == old(CopyPart(input, input.closed, input.pos, item)).pos
      ensures r == if old(CopyPart(input, input.closed, input.pos, item)).failed then Failure(IOException) else Success(())
    {
      var pos := GotoStartPosition(item);
      if pos.Failure? {
        return Failure(pos.error);
      }
      r := CopyDataFromPosition(item, pos.value, Drain(input, input.closed, input.pos, item));
    }

    /** copyDataFromPosition: the position compared with the part's end is
        `pos`, which the loop never moves; `whole` is the copy Drain
        specifies from where the stream is. */
    method CopyDataFromPosition(item: GoodCombinationPart, pos: int, ghost whole: Copy) returns (r: Result<()>)
      requires input != null && output != null && input.Valid() && item.IsValid() && pos == item.startOffset
      requires whole == Drain(input, input.closed, input.pos, item)
      modifies input, output
      ensures input.Valid() && input.closed == old(input.closed) && input.pos == whole.pos
      ensures output.written == old(output.written) + whole.bytes
      ensures r == if whole.failed then Failure(IOException) else Success(())
    {
      ghost var closed := input.closed;
      ghost var start := input.pos;
      ghost var small := item.startOffset + BUFFER_LENGTH > item.endOffset;
      DrainTakes(input, closed, start, item);
      var filePartEndReached := false;
      while !filePartEndReached
        invariant input.Valid() && input.closed == closed && start <= input.pos
        invariant output.written == old(output.written) + input.data[start..input.pos]
        invariant !filePartEndReached && small ==> input.pos == start
        invariant !filePartEndReached && !small ==>
                    ReadToEnd(input, closed, input.pos).pos == whole.pos && ReadToEnd(input, closed, input.pos).failed == whole.failed
        invariant filePartEndReached ==> input.pos == whole.pos && !whole.failed
        decreases |input.data| - input.pos, !filePartEndReached
      {
        var len := BUFFER_LENGTH;
        if pos + len > item.endOffset {
          len := item.endOffset - pos + 1;
          filePartEndReached := true;
        }
        ghost var p := input.pos;
        ReadOnceTakes(input, closed, p, len);
        var more := CopyBuffer(len);
        SliceJoin(old(output.written), input.data, start, p, input.pos);
        if more.Failure? {
          return Failure(more.error);
        }
        if !more.value {
          return Success(());
        }
      }
      r := Success(());
    }

    /** copyBuffer: one read of bufferLength bytes, the bytes read written;
        false at the end of the stream. */
    method CopyBuffer(bufferLength: int) returns (r: Result<bool>)
      requires input != null && output != null && input.Valid() && 0 < bufferLength
      modifies input, output
      ensures input.Valid() && input.closed == old(input.closed)
      ensures output.written == old(output.written) + old(ReadOnce(input, input.closed, input.pos, bufferLength)).bytes
      ensures input.pos == old(ReadOnce(input, input.closed, input.pos, bufferLength)).pos
      ensures r.Failure? <==> old(ReadOnce(input, input.closed, input.pos, bufferLength)).failed
      ensures r.Failure? ==> r.error == IOException
      ensures r.Success? ==> (r.value <==> old(ReadOnce(input, input.closed, input.pos, bufferLength)).bytes != [])
    {
      var read := input.Read(bufferLength);
      match read
      case Failure(e) => r := Failure(e);
      case Success(EndOfStream) => r := Success(false);
      case Success(Bytes(b)) =>
        output.Write(b);
        r := Success(true);
    }

    /** gotoStartPosition: skip(startOffset) must skip exactly that many
        bytes, else IOException. */
    method GotoStartPosition(item: GoodCombinationPart) returns (r: Result<int>)
      requires input != null && input.Valid() && item.IsValid()
      modifies input
      ensures input.Valid() && input.closed == old(input.closed)
      ensures old(input.closed) ==> r == Failure(IOException) && input.pos == old(input.pos)
      ensures !old(input.closed) ==> input.pos == old(input.pos) + Min(item.startOffset, |input.data| - old(input.pos))
      ensures !old(input.closed) ==>
                (r == Success(item.startOffset) <==> item.startOffset <= |input.data| - old(input.pos))
      ensures r.Success? ==> r.value == item.startOffset
      ensures r.Failure? ==> r.error == IOException
    {
      var pos := item.startOffset;
      var skipped := input.Skip(pos);
      if skipped.Failure? {
        return Failure(skipped.error);
      }
      if skipped.value != pos {
        return Failure(IOException);
      }
      r := Success(pos);
    }

    /** closeOutputStream: the output, if any, is closed and dropped. */
    method CloseOutputStream()
      modifies this, output
      ensures output == null
      ensures old(output) != null ==> old(output).closed && old(output).written == old(output.written)
    {
      if output != null {
        output.Close();
        output := null;
      }
    }

    /** cancel: the cached streams and the output are closed, then
        UserCancellationException is thrown. */
    method Cancel() returns (r: Result<()>)
      modifies this, parts, output, StreamSet(parts.streams)
      ensures parts.streams == map[] && parts.parts == old(parts.parts)
      ensures forall s :: s in old(StreamSet(parts.streams)) ==> s.closed
      ensures output == null && (old(output) != null ==> old(output).closed)
      ensures r == Failure(UserCancellationException)
    {
      parts.CloseStreams();
      CloseOutputStream();
      r := Failure(UserCancellationException);
    }
  }
}
