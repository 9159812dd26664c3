/** checksum/ChecksumFile.java: the immutable result of checksumming one
    file, with the byte range each part covers. */
module ChecksumData {
  import opened Wrappers
  import opened JavaIo
  import opened ChecksumList
  import Division

  /** All fields are final; a class (not a datatype) because ChecksumFiles
      and the comparison tell two results apart by reference. */
  class ChecksumFile {
    const checksums: Checksums
    const usedAlgorithm: string
    const partLength: int
    const sourceFile: File
    const sourceFileLength: int

    constructor (checksums: Checksums, usedAlgorithm: string, partLength: int,
                 sourceFile: File, sourceFileLength: int)
      ensures this.checksums == checksums && this.usedAlgorithm == usedAlgorithm
      ensures this.partLength == partLength && this.sourceFile == sourceFile
      ensures this.sourceFileLength == sourceFileLength
    {
      this.checksums := checksums;
      this.usedAlgorithm := usedAlgorithm;
      this.partLength := partLength;
      this.sourceFile := sourceFile;
      this.sourceFileLength := sourceFileLength;
    }

    function GetParts(): (n: nat)
      ensures n == |checksums.list|
    {
      checksums.Size()
    }

    /** getChecksum: null (None) for a part the file does not have. */
    function GetChecksum(part: int): (c: Option<string>)
      ensures c.Some? <==> 0 <= part < GetParts()
      ensures c.Some? ==> c.value == checksums.list[part]
    {
      checksums.Get(part)
    }

    /** hasPart: the index names one of the file's parts. */
    predicate HasPart(part: int)
      ensures HasPart(part) <==> 0 <= part < GetParts()
    {
      checksums.IsValidIndex(part)
    }

    /** partPresentInFile: the file has a checksum for the part, which
        happens exactly for the indices below getParts(). */
    predicate PartPresentInFile(part: int)
      ensures PartPresentInFile(part) <==> 0 <= part < GetParts()
    {
      GetChecksum(part) != None
    }

    /** Having a part and having a checksum for it are the same thing, and
        both mean the index is in range. */
    lemma PresentIffHasPart(part: int)
      ensures PartPresentInFile(part) <==> HasPart(part)
      ensures HasPart(part) <==> 0 <= part < GetParts()
    {
    }

    /** getStartOffsetOfPart: IndexOutOfBoundsException outside the parts. */
    function GetStartOffsetOfPart(part: int): (r: Result<int>)
      ensures r.Success? <==> HasPart(part)
      ensures r.Failure? ==> r.error == IndexOutOfBoundsException
      ensures r.Success? ==> r.value == partLength * part
    {
      if !checksums.IsValidIndex(part) then Failure(IndexOutOfBoundsException)
      else Success(partLength * part)
    }

    /** getEndOffset: the last byte of the part, clipped to the last byte of
        the file, with the same index check. */
    function GetEndOffset(part: int): (r: Result<int>)
      ensures r.Success? <==> HasPart(part)
      ensures r.Failure? ==> r.error == IndexOutOfBoundsException
      ensures r.Success? ==> r.value <= partLength * (part + 1) - 1 && r.value <= sourceFileLength - 1
      ensures r.Success? ==> r.value == partLength * (part + 1) - 1 || r.value == sourceFileLength - 1
    {
      if !checksums.IsValidIndex(part) then Failure(IndexOutOfBoundsException)
      else
        var offset := partLength * (part + 1) - 1;
        if offset >= sourceFileLength then Success(sourceFileLength - 1) else Success(offset)
    }

    /** setSourceFile: a copy pointing at `file` when that file exists with
        the recorded length, otherwise this very object. */
    method SetSourceFile(file: Option<File>) returns (r: ChecksumFile)
      ensures file.Some? && file.value.present && file.value.Length() == sourceFileLength ==>
                fresh(r) && r.sourceFile == file.value && r.checksums == checksums &&
                r.usedAlgorithm == usedAlgorithm && r.partLength == partLength &&
                r.sourceFileLength == sourceFileLength
      ensures !(file.Some? && file.value.present && file.value.Length() == sourceFileLength) ==> r == this
    {
      r := this;
      if IsValidFile(file) {
        r := new ChecksumFile(checksums, usedAlgorithm, partLength, file.value, sourceFileLength);
      }
    }

    /** isValidFile: a non-null file that exists and has the recorded
        source length; an absent file never qualifies, even when the
        recorded length is 0. */
    predicate IsValidFile(file: Option<File>)
      ensures IsValidFile(file) ==> file.Some? && file.value.present && |file.value.contents| == sourceFileLength
      ensures file.Some? && file.value.present && |file.value.contents| == sourceFileLength ==> IsValidFile(file)
    {
      file.Some? && file.value.present && file.value.Length() == sourceFileLength
    }
  }

  /** When the part count is ceil(L/P), as the divider produces, the parts
      cover bytes 0 .. L-1 without gap or overlap: each range is non-empty,
      each starts right after the previous one ends, the last ends at L-1,
      and each is as long as the divider's part. */
  lemma {:induction false} OffsetsTileFile(f: ChecksumFile, part: int)
    requires f.partLength > 0 && f.sourceFileLength >= 0
    requires f.GetParts() == Division.NumberOfParts(f.sourceFileLength, f.partLength)
    requires 0 <= part < f.GetParts()
    ensures f.GetStartOffsetOfPart(part).Success? && f.GetEndOffset(part).Success?
    ensures f.GetStartOffsetOfPart(part).value <= f.GetEndOffset(part).value
    ensures part + 1 < f.GetParts() ==>
              f.GetEndOffset(part).value + 1 == f.GetStartOffsetOfPart(part + 1).value
    ensures part + 1 == f.GetParts() ==> f.GetEndOffset(part).value == f.sourceFileLength - 1
    ensures forall data: seq<bv8> | |data| == f.sourceFileLength ::
              f.GetEndOffset(part).value - f.GetStartOffsetOfPart(part).value + 1 ==
              |Division.Part(data, f.partLength, part)|
  {
    var p, L, n := f.partLength, f.sourceFileLength, f.GetParts();
    var start := p * part;
    var next := p * (part + 1);
    assert next == start + p;
    Division.MulMonotone(part, n - 1, p);
    assert start < L;
    if part + 1 < n {
      Division.MulMonotone(part + 1, n - 1, p);
      assert next <= (n - 1) * p < L;
    } else {
      assert next == n * p >= L;
    }
  }
}
