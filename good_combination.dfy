/** GoodCombination.java and combination/GoodCombinationPart.java: the list
    of byte ranges that make up the rebuilt file, each taken from one of the
    compared files, plus one cached input stream per file index. */
module Combination {
  import opened Wrappers
  import opened JavaIo

  /** One range of the output: bytes startOffset .. endOffset (both
      inclusive) of the file with index streamIndex.  A value with getters
      only. */
  datatype GoodCombinationPart = GoodCombinationPart(streamIndex: int, startOffset: int, endOffset: int)
  {
    /** The number of bytes the range covers; both ends are inclusive. */
    function Length(): (n: int)
      ensures n == endOffset - startOffset + 1
    {
      endOffset - startOffset + 1
    }

    /** isValid: a file index and a start that are not negative and an end
        strictly after the start, so a valid range holds two bytes or more
        and a one-byte range is refused. */
    predicate IsValid()
      ensures IsValid() <==> streamIndex >= 0 && startOffset >= 0 && Length() >= 2
    {
      streamIndex >= 0 && startOffset >= 0 && endOffset > startOffset
    }
  }

  /** The non-null streams of a stream map. */
  function StreamSet(streams: map<int, InputStream?>): (s: set<InputStream>)
    ensures forall k :: k in streams && streams[k] != null ==> streams[k] in s
  {
    set k | k in streams && streams[k] != null :: streams[k]
  }

  class GoodCombination {
    var parts: seq<GoodCombinationPart>
    var streams: map<int, InputStream?>

    constructor ()
      ensures parts == [] && streams == map[]
    {
      parts := [];
      streams := map[];
    }

    /** add: a part (None standing for null) is appended when it is valid
        and dropped otherwise. */
    method Add(part: Option<GoodCombinationPart>)
      modifies this
      ensures part.Some? && part.value.IsValid() ==> parts == old(parts) + [part.value]
      ensures !(part.Some? && part.value.IsValid()) ==> parts == old(parts)
      ensures streams == old(streams)
    {
      if part.Some? && part.value.IsValid() {
        parts := parts + [part.value];
      }
    }

    function Size(): (n: nat)
      reads this
      ensures n == |parts|
    {
      |parts|
    }

    /** get: the index-th part in insertion order; List.get throws outside
        the list. */
    function Get(index: int): (r: Result<GoodCombinationPart>)
      reads this
      ensures 0 <= index < |parts| ==> r == Success(parts[index])
      ensures !(0 <= index < |parts|) ==> r == Failure(IndexOutOfBoundsException)
    {
      if 0 <= index < |parts| then Success(parts[index]) else Failure(IndexOutOfBoundsException)
    }

    /** addStream: the first stream stored under an index is kept. */
    method AddStream(streamIndex: int, stream: InputStream?)
      modifies this
      ensures streamIndex in old(streams) ==> streams == old(streams)
      ensures streamIndex !in old(streams) ==> streams == old(streams)[streamIndex := stream]
      ensures parts == old(parts)
    {
      if !ContainsStream(streamIndex) {
        streams := streams[streamIndex := stream];
      }
    }

    function ContainsStream(streamIndex: int): (b: bool)
      reads this
      ensures b <==> streamIndex in streams
    {
      streamIndex in streams
    }

    /** getStream: the stored stream, null for an absent index. */
    function GetStream(streamIndex: int): (s: InputStream?)
      reads this
      ensures streamIndex in streams ==> s == streams[streamIndex]
      ensures streamIndex !in streams ==> s == null
    {
      if streamIndex in streams then streams[streamIndex] else null
    }

    /** closeStreams: every stored non-null stream is closed, with its cursor
        where it was, and the map is emptied. */
    method CloseStreams()
      modifies this, StreamSet(streams)
      ensures streams == map[] && parts == old(parts)
      ensures forall s :: s in old(StreamSet(streams)) ==> s.closed && s.pos == old(s.pos)
    {
      var remaining := streams.Keys;
      while exists k :: k in remaining
        invariant remaining <= streams.Keys
        invariant streams == old(streams) && parts == old(parts)
        invariant forall k :: k in streams && k !in remaining && streams[k] != null ==> streams[k].closed
        invariant forall s :: s in StreamSet(streams) ==> s.pos == old(s.pos)
        decreases |remaining|
      {
        var k :| k in remaining;
        var stream := streams[k];
        if stream != null {
          stream.Close();
        }
        remaining := remaining - {k};
      }
      streams := map[];
    }
  }

  /** What an extraction yields: the shared NOT_EXISTS sentinel or a
      combination. */
  datatype CombinationResult = NotExists | Exists(combination: GoodCombination)
}
