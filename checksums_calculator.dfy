/** checksum/FileChecksumsCalculator.java with the EMPTY_DATA sentinel of
    checksum/ChecksumFileFactory.java: checksumming every part of a file. */
module Calculation {
  import opened Wrappers
  import opened JavaIo
  import opened ChecksumList
  import opened ChecksumData
  import Crc
  import Division

  /** What calculateChecksums returns: a new ChecksumFile, or the shared
      EMPTY_DATA object that stands for a failed read. */
  datatype CalcResult = EmptyData | Computed(file: ChecksumFile)

  /** The checksums of parts 0 .. n-1 of `data`, in order. */
  function PartChecksums(algorithm: Crc.CRCAlgorithm, data: seq<bv8>, partLength: int, n: nat): (cs: seq<string>)
    requires partLength > 0 && n <= Division.NumberOfParts(|data|, partLength)
    ensures |cs| == n
  {
    if n == 0 then []
    else
      var part := Division.Part(data, partLength, n - 1);
      PartChecksums(algorithm, data, partLength, n - 1) + [Crc.Checksum(algorithm, part, |part|)]
  }

  /** Entry k is the checksum of part k alone. */
  lemma {:induction false} PartChecksumAt(algorithm: Crc.CRCAlgorithm, data: seq<bv8>, partLength: int, n: nat, k: nat)
    requires partLength > 0 && n <= Division.NumberOfParts(|data|, partLength) && k < n
    ensures PartChecksums(algorithm, data, partLength, n)[k] ==
              Crc.Checksum(algorithm, Division.Part(data, partLength, k), |Division.Part(data, partLength, k)|)
  {
    if k < n - 1 {
      PartChecksumAt(algorithm, data, partLength, n - 1, k);
    }
  }

  /** Some byte of the file's data cannot be read. */
  predicate HasUnreadableByte(file: File)
  {
    file.unreadableAt.Some? && file.unreadableAt.value < |file.contents|
  }

  /** An unreadable byte lies in exactly the part its offset divides into. */
  lemma UnreadableByteLiesInPart(file: File, partLength: int)
    requires partLength > 0 && HasUnreadableByte(file)
    ensures file.unreadableAt.value / partLength < Division.NumberOfParts(|file.contents|, partLength)
    ensures Division.Unreadable(file, partLength, file.unreadableAt.value / partLength)
  {
    var u := file.unreadableAt.value;
    var k := u / partLength;
    var n := Division.NumberOfParts(|file.contents|, partLength);
    assert k * partLength <= u < (k + 1) * partLength;
    if k >= n {
      Division.MulMonotone(n, k, partLength);
      assert false;
    }
  }

  /** The buffer is the fresh array the divider hands out for part k. */
  ghost predicate HoldsPart(buffer: Crc.Buffer, data: seq<bv8>, partLength: int, k: nat)
    requires partLength > 0 && k < Division.NumberOfParts(|data|, partLength)
  {
    buffer.Buffer? && |buffer.bytes| == partLength &&
    buffer.length == |Division.Part(data, partLength, k)| &&
    buffer.bytes == Division.Part(data, partLength, k) + Division.Zeros(partLength - buffer.length)
  }

  class FileChecksumsCalculator {
    const fileDivider: Division.FileDivider
    const crc: Crc.CRC

    constructor (fileDivider: Division.FileDivider, crc: Crc.CRC)
      ensures this.fileDivider == fileDivider && this.crc == crc
    {
      this.fileDivider := fileDivider;
      this.crc := crc;
    }

    /** calculateChecksums: one checksum per part, in order, wrapped with the
        divider's part length, the CRC's algorithm name and the source file;
        EMPTY_DATA when a read fails.  The divider is closed either way.  The
        file must exist and be readable: otherwise divide throws before the
        stream is opened and close() dereferences null. */
    method CalculateChecksums() returns (r: CalcResult)
      requires fileDivider.Valid() && crc.Valid()
      requires fileDivider.sourceFile.present && fileDivider.sourceFile.canRead
      modifies fileDivider, crc
      ensures crc.Valid() && fileDivider.input != null && fileDivider.input.closed
      ensures HasUnreadableByte(fileDivider.sourceFile) <==> r == EmptyData
      ensures r.Computed? ==>
                fresh(r.file) &&
                fileDivider.parts == Division.NumberOfParts(|fileDivider.sourceFile.contents|, fileDivider.partLength) &&
                r.file.checksums.list == PartChecksums(crc.algorithm, fileDivider.sourceFile.contents,
                                                       fileDivider.partLength, fileDivider.parts) &&
                r.file.usedAlgorithm == crc.algorithm.name &&
                r.file.partLength == fileDivider.partLength &&
                r.file.sourceFile == fileDivider.sourceFile &&
                r.file.sourceFileLength == fileDivider.sourceFile.Length()
    {
      var checksums := FillChecksums();
      if checksums.Failure? {
        return EmptyData;
      }
      var file := new ChecksumFile(checksums.value, crc.GetAlgorithm(), fileDivider.partLength,
                                   fileDivider.sourceFile, fileDivider.sourceFile.Length());
      r := Computed(file);
    }

    /** fillChecksums: divide, then checksum buffers until EOF; the divider
        is closed in `finally`. */
    method FillChecksums() returns (r: Result<Checksums>)
      requires fileDivider.Valid() && crc.Valid()
      requires fileDivider.sourceFile.present && fileDivider.sourceFile.canRead
      modifies fileDivider, crc
      ensures crc.Valid() && fileDivider.Valid() && fileDivider.input != null && fileDivider.input.closed
      ensures fileDivider.parts == Division.NumberOfParts(|fileDivider.sourceFile.contents|, fileDivider.partLength)
      ensures HasUnreadableByte(fileDivider.sourceFile) <==> r.Failure?
      ensures r.Failure? ==> r.error == IOException
      ensures r.Success? ==>
                r.value.list == PartChecksums(crc.algorithm, fileDivider.sourceFile.contents,
                                              fileDivider.partLength, fileDivider.parts)
    {
      var divided := fileDivider.Divide();
      var list, failure := ChecksumParts();
      fileDivider.Close();
      if failure.Some? {
        return Failure(failure.value);
      }
      r := Success(Checksums(list));
    }

    /** The state of fillChecksums' loop after `list` was filled and
        `buffer` is the latest result of nextPart. */
    ghost predicate Scanning(list: seq<string>, buffer: Result<Crc.Buffer>)
      reads this, fileDivider, fileDivider.input, crc
    {
      var file := fileDivider.sourceFile;
      var partLength := fileDivider.partLength;
      fileDivider.Valid() && crc.Valid() &&
      fileDivider.input != null && !fileDivider.input.closed &&
      fileDivider.parts == Division.NumberOfParts(|file.contents|, partLength) &&
      |list| <= fileDivider.parts &&
      list == PartChecksums(crc.algorithm, file.contents, partLength, |list|) &&
      (forall k :: 0 <= k < |list| ==> !Division.Unreadable(file, partLength, k)) &&
      (buffer.Success? ==> fileDivider.Ready()) &&
      (buffer.Success? && buffer.value.Buffer? ==>
         |list| < fileDivider.parts && fileDivider.currentPart == |list| + 1 &&
         !Division.Unreadable(file, partLength, |list|) &&
         HoldsPart(buffer.value, file.contents, partLength, |list|)) &&
      (buffer.Success? && buffer.value.EOF? ==> |list| == fileDivider.parts) &&
      (buffer.Failure? ==>
         buffer.error == IOException && |list| < fileDivider.parts &&
         Division.Unreadable(file, partLength, |list|))
    }

    /** The loop of fillChecksums: checksums buffers from nextPart until EOF
        or until a read throws. */
    method ChecksumParts() returns (list: seq<string>, failure: Option<Exception>)
      requires fileDivider.Ready() && fileDivider.currentPart == 0 && crc.Valid()
      modifies fileDivider, fileDivider.input, crc
      ensures crc.Valid() && fileDivider.Valid()
      ensures fileDivider.input == old(fileDivider.input) && !fileDivider.input.closed
      ensures fileDivider.parts == old(fileDivider.parts)
      ensures HasUnreadableByte(fileDivider.sourceFile) <==> failure.Some?
      ensures failure.Some? ==> failure.value == IOException
      ensures failure.None? ==>
                list == PartChecksums(crc.algorithm, fileDivider.sourceFile.contents,
                                      fileDivider.partLength, fileDivider.parts)
    {
      list := [];
      var buffer := fileDivider.NextPart();
      while buffer.Success? && buffer.value != Crc.EOF
        invariant Scanning(list, buffer)
        invariant fileDivider.input == old(fileDivider.input)
        invariant fileDivider.parts == old(fileDivider.parts)
        decreases fileDivider.parts - |list|
      {
        list, buffer := ChecksumNextPart(list, buffer);
      }
      if buffer.Failure? {
        return list, Some(buffer.error);
      }
      if HasUnreadableByte(fileDivider.sourceFile) {
        UnreadableByteLiesInPart(fileDivider.sourceFile, fileDivider.partLength);
        assert false;
      }
      failure := None;
    }

    /** One turn of fillChecksums' loop: checksum the buffer, then ask the
        divider for the next one. */
    method ChecksumNextPart(list: seq<string>, buffer: Result<Crc.Buffer>)
      returns (list': seq<string>, buffer': Result<Crc.Buffer>)
      requires Scanning(list, buffer) && buffer.Success? && buffer.value.Buffer?
      modifies fileDivider, fileDivider.input, crc
      ensures Scanning(list', buffer') && |list'| == |list| + 1
      ensures fileDivider.input == old(fileDivider.input)
      ensures fileDivider.parts == old(fileDivider.parts)
    {
      var data := fileDivider.sourceFile.contents;
      var checksum := CalculateChecksum(buffer.value, Division.Part(data, fileDivider.partLength, |list|));
      list' := list + [checksum];
      buffer' := fileDivider.NextPart();
    }

    /** calculateChecksum: the CRC of one buffer, which holds `part`
        followed by the zeros of the fresh array. */
    method CalculateChecksum(buffer: Crc.Buffer, ghost part: seq<bv8>) returns (checksum: string)
      requires crc.Valid() && 0 < |part|
      requires buffer.Buffer? && buffer.length == |part| &&
               buffer.bytes == part + Division.Zeros(|buffer.bytes| - |part|)
      modifies crc
      ensures crc.Valid() && checksum == Crc.Checksum(crc.algorithm, part, |part|)
    {
      checksum := crc.CalculateChecksum(buffer);
      Crc.ChecksumOfPadded(crc.algorithm, part, Division.Zeros(|buffer.bytes| - |part|));
    }
  }
}
