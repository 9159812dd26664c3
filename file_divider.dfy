/** checksum/FileDivider.java: cutting a file into parts of a clamped length
    and handing them out one buffer at a time. */
module Division {
  import opened Wrappers
  import opened JavaIo
  import Crc

  /** Settings.MIN_PART_SIZE and Settings.MAX_PART_SIZE. */
  const MIN_PART_SIZE: int := 1024
  const MAX_PART_SIZE: int := 10 * 1024 * 1024

  /** constrainPartLength: the allowed length nearest to the requested one. */
  function ConstrainPartLength(partLength: int): (r: int)
    ensures MIN_PART_SIZE <= r <= MAX_PART_SIZE
    ensures forall v :: MIN_PART_SIZE <= v <= MAX_PART_SIZE ==>
              Distance(r, partLength) <= Distance(v, partLength)
  {
    if partLength < MIN_PART_SIZE then MIN_PART_SIZE
    else if partLength > MAX_PART_SIZE then MAX_PART_SIZE
    else partLength
  }

  function Distance(a: int, b: int): (d: nat)
  {
    if a <= b then b - a else a - b
  }

  /** A requested length inside the bounds is kept as it is. */
  lemma ConstrainKeepsAllowedLength(partLength: int)
    requires MIN_PART_SIZE <= partLength <= MAX_PART_SIZE
    ensures ConstrainPartLength(partLength) == partLength
  {
    assert Distance(partLength, partLength) == 0;
  }

  /** calculateNumberOfParts: the quotient, plus one for a remainder. */
  function NumberOfParts(sourceFileLength: nat, partLength: int): (parts: nat)
    requires partLength > 0
    ensures parts * partLength >= sourceFileLength
    ensures parts > 0 ==> (parts - 1) * partLength < sourceFileLength
  {
    var q := sourceFileLength / partLength;
    if sourceFileLength % partLength != 0 then q + 1 else q
  }

  /** An empty file has no parts, a non-empty one at least one. */
  lemma NoPartsExactlyForEmptyFile(sourceFileLength: nat, partLength: int)
    requires partLength > 0
    ensures NumberOfParts(sourceFileLength, partLength) == 0 <==> sourceFileLength == 0
  {
  }

  /** The bytes of part k: [k*P, min((k+1)*P, |data|)). */
  function Part(data: seq<bv8>, partLength: int, k: nat): (part: seq<bv8>)
    requires partLength > 0 && k < NumberOfParts(|data|, partLength)
    ensures 0 < |part| <= partLength
  {
    data[k * partLength .. Min((k + 1) * partLength, |data|)]
  }

  /** The parts 0 .. n-1 laid end to end. */
  function Joined(data: seq<bv8>, partLength: int, n: nat): (joined: seq<bv8>)
    requires partLength > 0 && n <= NumberOfParts(|data|, partLength)
  {
    if n == 0 then [] else Joined(data, partLength, n - 1) + Part(data, partLength, n - 1)
  }

  lemma {:induction false} JoinedIsPrefix(data: seq<bv8>, partLength: int, n: nat)
    requires partLength > 0 && n <= NumberOfParts(|data|, partLength)
    ensures Joined(data, partLength, n) == data[..Min(n * partLength, |data|)]
  {
    if n > 0 {
      JoinedIsPrefix(data, partLength, n - 1);
      var a, b := (n - 1) * partLength, n * partLength;
      assert b == a + partLength;
      MulMonotone(n - 1, NumberOfParts(|data|, partLength) - 1, partLength);
      assert a < |data|;
      assert Min(a, |data|) == a;
      assert data[..a] + data[a..Min(b, |data|)] == data[..Min(b, |data|)];
    }
  }

  lemma MulMonotone(x: nat, y: nat, p: nat)
    requires x <= y
    ensures x * p <= y * p
  {
  }

  /** The parts tile the file: joined together they give back its bytes. */
  lemma PartsTileFile(data: seq<bv8>, partLength: int)
    requires partLength > 0
    ensures Joined(data, partLength, NumberOfParts(|data|, partLength)) == data
  {
    JoinedIsPrefix(data, partLength, NumberOfParts(|data|, partLength));
  }

  class FileDivider {
    const sourceFile: File
    const partLength: int
    const sourceFileLength: int
    var parts: int
    var currentPart: int
    var input: InputStream?

    ghost predicate Valid()
      reads this
    {
      MIN_PART_SIZE <= partLength <= MAX_PART_SIZE &&
      sourceFileLength == sourceFile.Length()
    }

    /** Divided and positioned: the stream reads the source file and stands
        at the start of part `currentPart`. */
    ghost predicate Ready()
      reads this, input
    {
      Valid() && input != null && input.Valid() && !input.closed &&
      sourceFile.present &&
      input.data == sourceFile.contents && input.unreadableAt == sourceFile.unreadableAt &&
      parts == NumberOfParts(sourceFileLength, partLength) &&
      0 <= currentPart <= parts &&
      input.pos == Min(currentPart * partLength, sourceFileLength)
    }

    constructor (sourceFile: File, partLength: int)
      ensures Valid() && this.sourceFile == sourceFile
      ensures this.partLength == ConstrainPartLength(partLength)
      ensures input == null
    {
      this.sourceFile := sourceFile;
      this.partLength := ConstrainPartLength(partLength);
      this.sourceFileLength := sourceFile.Length();
      input := null;
    }

    /** divide: FileNotFoundException for a missing or unreadable file,
        before any stream is opened; otherwise counts the parts and opens a
        fresh stream at part 0. */
    method Divide() returns (r: Result<()>)
      requires Valid()
      modifies this
      ensures Valid()
      ensures !(sourceFile.present && sourceFile.canRead) ==>
                r == Failure(FileNotFoundException) && input == old(input) &&
                parts == old(parts) && currentPart == old(currentPart)
      ensures sourceFile.present && sourceFile.canRead ==>
                r.Success? && Ready() && fresh(input) && currentPart == 0
    {
      if !sourceFile.present || !sourceFile.canRead {
        return Failure(FileNotFoundException);
      }
      parts := CalculateNumberOfParts();
      input := OpenInputStream(sourceFile);
      currentPart := 0;
      r := Success(());
    }

    function CalculateNumberOfParts(): (n: nat)
      reads this
      requires Valid()
      ensures n == NumberOfParts(sourceFileLength, partLength)
    {
      NumberOfParts(sourceFileLength, partLength)
    }

    /** nextPart: EOF once all parts were handed out; otherwise a fresh
        buffer of partLength bytes holding the next part, its length being
        the byte count read. */
    method NextPart() returns (r: Result<Crc.Buffer>)
      requires Ready()
      modifies this, input
      ensures input == old(input) && parts == old(parts) && Valid()
      ensures old(currentPart) == parts ==> r == Success(Crc.EOF) && Ready() && currentPart == old(currentPart)
      ensures old(currentPart) < parts ==> currentPart == old(currentPart) + 1
      ensures old(currentPart) < parts && r.Success? ==>
                Ready() && r.value.Buffer? && |r.value.bytes| == partLength &&
                r.value.length == |Part(sourceFile.contents, partLength, old(currentPart))| &&
                r.value.bytes == Part(sourceFile.contents, partLength, old(currentPart)) +
                                 Zeros(partLength - r.value.length)
      ensures old(currentPart) < parts && r.Failure? ==>
                r.error == IOException && !input.closed && input.pos == old(input.pos) &&
                Unreadable(sourceFile, partLength, old(currentPart))
      ensures old(currentPart) < parts && r.Success? ==> !Unreadable(sourceFile, partLength, old(currentPart))
    {
      if currentPart == parts {
        return Success(Crc.EOF);
      }
      PartRead(sourceFile, partLength, currentPart);
      currentPart := currentPart + 1;
      var buffer := Zeros(partLength);
      var read := input.Read(partLength);
      if read.Failure? {
        return Failure(read.error);
      }
      var len := if read.value.Bytes? then |read.value.bytes| else -1;
      if read.value.Bytes? {
        buffer := read.value.bytes + buffer[len..];
      }
      r := Success(Crc.Buffer(buffer, len));
    }

    /** close: closes the stream; there is none before divide. */
    method Close()
      requires input != null
      modifies input
      ensures input.closed && input.pos == old(input.pos)
    {
      input.Close();
    }
  }

  /** Reading partLength bytes at the start of part k: the part's first
      byte lies inside the file, and the read gives exactly the part, or
      IOException exactly when the device cannot deliver one of its bytes. */
  lemma PartRead(f: File, partLength: int, k: nat)
    requires partLength > 0 && k < NumberOfParts(|f.contents|, partLength)
    ensures k * partLength < |f.contents|
    ensures var r := ReadOutcome(f.contents, f.unreadableAt, false, k * partLength, partLength);
            (r.Failure? <==> Unreadable(f, partLength, k)) &&
            (r.Failure? ==> r.error == IOException) &&
            (r.Success? ==> r.value.Bytes? && r.value.bytes == Part(f.contents, partLength, k)) &&
            k * partLength + |Part(f.contents, partLength, k)| == Min((k + 1) * partLength, |f.contents|)
  {
    var a := k * partLength;
    MulMonotone(k, NumberOfParts(|f.contents|, partLength) - 1, partLength);
    assert (k + 1) * partLength == a + partLength;
  }

  /** The device cannot deliver some byte of part k. */
  ghost predicate Unreadable(file: File, partLength: int, k: nat)
    requires partLength > 0 && k < NumberOfParts(|file.contents|, partLength)
  {
    file.unreadableAt.Some? &&
    k * partLength <= file.unreadableAt.value < Min((k + 1) * partLength, |file.contents|)
  }

  /** A new byte array of length n. */
  function Zeros(n: int): (z: seq<bv8>)
    ensures |z| == if n < 0 then 0 else n
    ensures forall i :: 0 <= i < |z| ==> z[i] == 0
  {
    if n <= 0 then [] else Zeros(n - 1) + [0]
  }
}
