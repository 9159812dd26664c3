/** checksum/ChecksumFiles.java: the ordered set of checksummed files that a
    comparison works on.  Files are told apart by reference. */
module FileSet {
  import opened Wrappers
  import opened ChecksumData

  class ChecksumFiles {
    var files: seq<ChecksumFile>

    constructor ()
      ensures files == []
    {
      files := [];
    }

    /** Every stored file has the first file's algorithm, and while the
        first file's part length is positive every stored file has it too. */
    ghost predicate Consistent()
      reads this
    {
      forall k :: 0 <= k < |files| ==>
        files[k].usedAlgorithm == files[0].usedAlgorithm &&
        (files[0].partLength > 0 ==> files[k].partLength == files[0].partLength)
    }

    function Size(): (n: nat)
      reads this
      ensures n == |files|
    {
      |files|
    }

    /** isValidFileIndex: the index names a stored file. */
    predicate IsValidFileIndex(index: int)
      reads this
      ensures IsValidFileIndex(index) <==> 0 <= index < |files|
    {
      0 <= index < Size()
    }

    /** getPartLength: -1 for an empty set, else the first file's. */
    function GetPartLength(): (p: int)
      reads this
      ensures files == [] ==> p == -1
      ensures files != [] ==> p == files[0].partLength
    {
      if Size() == 0 then -1 else files[0].partLength
    }

    /** getAlgorithm: null (None) for an empty set, else the first file's. */
    function GetAlgorithm(): (a: Option<string>)
      reads this
      ensures a.None? <==> files == []
      ensures a.Some? ==> a.value == files[0].usedAlgorithm
    {
      if Size() == 0 then None else Some(files[0].usedAlgorithm)
    }

    /** hasSamePartLength: any file fits an empty set; otherwise the file
        must have the first file's part length, unless that is not positive. */
    predicate HasSamePartLength(file: ChecksumFile)
      reads this
      ensures files == [] ==> HasSamePartLength(file)
      ensures files != [] && files[0].partLength > 0 ==>
                (HasSamePartLength(file) <==> file.partLength == files[0].partLength)
    {
      GetPartLength() <= 0 || file.partLength == GetPartLength()
    }

    /** hasSameAlgorithm: any file fits an empty set; otherwise the file
        must use the first file's algorithm. */
    predicate HasSameAlgorithm(file: ChecksumFile)
      reads this
      ensures HasSameAlgorithm(file) <==> files == [] || file.usedAlgorithm == files[0].usedAlgorithm
    {
      GetAlgorithm() == None || Some(file.usedAlgorithm) == GetAlgorithm()
    }

    /** isValidFileToAdd: a non-null file that fits the set; every file
        fits an empty set. */
    predicate IsValidFileToAdd(file: ChecksumFile?)
      reads this
      ensures IsValidFileToAdd(file) ==> file != null
      ensures file != null && files == [] ==> IsValidFileToAdd(file)
      ensures IsValidFileToAdd(file) && files != [] ==> file.usedAlgorithm == files[0].usedAlgorithm
    {
      file != null && HasSamePartLength(file) && HasSameAlgorithm(file)
    }

    /** isAlreadyAdded: a linear search by reference. */
    method IsAlreadyAdded(file: ChecksumFile) returns (found: bool)
      ensures found <==> file in files
    {
      var k := 0;
      while k < |files|
        invariant 0 <= k <= |files|
        invariant file !in files[..k]
      {
        if files[k] == file {
          return true;
        }
        k := k + 1;
      }
      assert files[..k] == files;
      return false;
    }

    /** add: appends a non-null file with matching part length and
        algorithm that is not already in the set, and says whether it did. */
    method Add(file: ChecksumFile?) returns (added: bool)
      modifies this
      ensures added <==> old(IsValidFileToAdd(file)) && file !in old(files)
      ensures added ==> files == old(files) + [file]
      ensures !added ==> files == old(files)
      ensures old(Consistent()) ==> Consistent()
    {
      added := false;
      if IsValidFileToAdd(file) {
        var present := IsAlreadyAdded(file);
        if !present {
          files := files + [file];
          added := true;
        }
      }
    }

    /** remove: deletes exactly the file at a valid index. */
    method Remove(index: int) returns (removed: bool)
      modifies this
      ensures removed <==> 0 <= index < |old(files)|
      ensures removed ==> files == old(files)[..index] + old(files)[index + 1..]
      ensures !removed ==> files == old(files)
      ensures old(Consistent()) && (index != 0 || old(GetPartLength()) > 0) ==> Consistent()
    {
      removed := false;
      if IsValidFileIndex(index) {
        files := files[..index] + files[index + 1..];
        removed := true;
      }
    }

    /** findShorterFileParts: the smaller of the two part counts. */
    function FindShorterFileParts(index1: int, index2: int): (shortest: nat)
      reads this
      requires IsValidFileIndex(index1) && IsValidFileIndex(index2)
      ensures shortest <= files[index1].GetParts() && shortest <= files[index2].GetParts()
      ensures shortest == files[index1].GetParts() || shortest == files[index2].GetParts()
    {
      var shortest := files[index1].GetParts();
      if files[index2].GetParts() < shortest then files[index2].GetParts() else shortest
    }

    /** arePartsEquals: String.equals of the two checksums; the first file
        must have the part (a null first checksum throws). */
    function ArePartsEquals(part: int, file1: int, file2: int): (equal: bool)
      reads this
      requires IsValidFileIndex(file1) && IsValidFileIndex(file2)
      requires files[file1].HasPart(part)
      ensures equal <==> files[file2].HasPart(part) &&
                         files[file1].checksums.list[part] == files[file2].checksums.list[part]
    {
      var checksum1 := files[file1].GetChecksum(part);
      var checksum2 := files[file2].GetChecksum(part);
      checksum2 == Some(checksum1.value)
    }

    /** isPartPresentInBothFiles: the part lies below the shorter of the
        two files' part counts. */
    predicate IsPartPresentInBothFiles(part: int, index1: int, index2: int)
      reads this
      requires IsValidFileIndex(index1) && IsValidFileIndex(index2)
      ensures IsPartPresentInBothFiles(part, index1, index2) <==>
                0 <= part < Min(files[index1].GetParts(), files[index2].GetParts())
    {
      files[index1].PartPresentInFile(part) && files[index2].PartPresentInFile(part)
    }

    /** Below the shorter part count both files always have the part. */
    lemma PresentBelowShorter(part: int, index1: int, index2: int)
      requires IsValidFileIndex(index1) && IsValidFileIndex(index2)
      requires 0 <= part < FindShorterFileParts(index1, index2)
      ensures IsPartPresentInBothFiles(part, index1, index2)
    {
    }
  }
}
