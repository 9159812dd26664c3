/** crc/CRC.java and crc/Buffer.java: the digest of one file part, with the
    shortcut that a part made of one repeated byte is named by that byte. */
module Crc {
  import opened Wrappers

  /** A part handed out by the file divider: `bytes` is the whole array and
      its first `length` entries hold data.  EOF is the shared end marker,
      which the calculator recognises by identity. */
  datatype Buffer = EOF | Buffer(bytes: seq<bv8>, length: int)

  /** A digest algorithm (CRC-32, MD5 or SHA-1) reduced to what CRC observes:
      its name and the hex string it gives for the bytes fed to it since its
      last reset.  The digest computations themselves are not modelled. */
  datatype CRCAlgorithm = CRCAlgorithm(name: string, hexOf: seq<bv8> -> string)

  /** Byte.MIN_VALUE - 1, the "no first byte seen yet" value of firstByte. */
  const FIRST_BYTE_UNSET: int := -129

  /** The value of a byte as Java's signed `byte` type reads it. */
  function Signed(b: bv8): (v: int)
    ensures -128 <= v < 128
    ensures v % 256 == b as int
  {
    if b < 128 then b as int else b as int - 256
  }

  const HEX_DIGITS: string := "0123456789ABCDEF"

  /** The value of an upper-case hex digit, -1 for any other character. */
  function HexValue(c: char): (d: int)
    ensures -1 <= d < 16
    ensures d >= 0 ==> HEX_DIGITS[d] == c
  {
    if '0' <= c <= '9' then c as int - '0' as int
    else if 'A' <= c <= 'F' then c as int - 'A' as int + 10
    else -1
  }

  lemma HexDigitRoundTrip(d: int)
    requires 0 <= d < 16
    ensures HexValue(HEX_DIGITS[d]) == d
  {
    if d < 10 {
      assert HEX_DIGITS[d] as int == '0' as int + d;
    } else {
      assert HEX_DIGITS[d] as int == 'A' as int + d - 10;
    }
  }

  /** "0x" followed by the two upper-case hex digits of `v & 0xFF`, padded
      with a leading zero: what getHexValue answers for a uniform part. */
  function ByteHex(v: int): (s: string)
    ensures |s| == 4 && s[..2] == "0x"
    ensures HexValue(s[2]) * 16 + HexValue(s[3]) == v % 256
  {
    var b := v % 256;
    HexDigitRoundTrip(b / 16);
    HexDigitRoundTrip(b % 16);
    "0x" + [HEX_DIGITS[b / 16], HEX_DIGITS[b % 16]]
  }

  /** The uniform-part name identifies the byte: two values give the same
      string exactly when they agree modulo 256. */
  lemma ByteHexIdentifiesByte(a: int, b: int)
    ensures ByteHex(a) == ByteHex(b) <==> a % 256 == b % 256
  {
    if ByteHex(a) == ByteHex(b) {
      calc {
        a % 256;
        HexValue(ByteHex(a)[2]) * 16 + HexValue(ByteHex(a)[3]);
        HexValue(ByteHex(b)[2]) * 16 + HexValue(ByteHex(b)[3]);
        b % 256;
      }
    }
  }

  /** A zero-filled part is named "0x00". */
  lemma ZeroByteHex()
    ensures ByteHex(0) == "0x00"
  {
  }

  /** All of bytes[0..length) equal bytes[0]. */
  predicate Uniform(bytes: seq<bv8>, length: int)
    requires 0 < |bytes| && length <= |bytes|
  {
    forall i :: 0 <= i < length ==> bytes[i] == bytes[0]
  }

  /** What calculateChecksum answers for a buffer: the repeated byte's name
      when the data is uniform, otherwise the algorithm's digest of exactly
      the data bytes. */
  function Checksum(algorithm: CRCAlgorithm, bytes: seq<bv8>, length: int): (s: string)
    requires 0 < |bytes| && 0 <= length <= |bytes|
  {
    if Uniform(bytes, length) then ByteHex(bytes[0] as int) else algorithm.hexOf(bytes[..length])
  }

  /** Two uniform buffers with the same byte value get the same checksum,
      whatever their lengths and algorithms. */
  lemma UniformChecksumIgnoresAlgorithmAndLength(
    a1: CRCAlgorithm, bytes1: seq<bv8>, length1: int,
    a2: CRCAlgorithm, bytes2: seq<bv8>, length2: int)
    requires 0 < |bytes1| && 0 <= length1 <= |bytes1| && Uniform(bytes1, length1)
    requires 0 < |bytes2| && 0 <= length2 <= |bytes2| && Uniform(bytes2, length2)
    requires bytes1[0] == bytes2[0]
    ensures Checksum(a1, bytes1, length1) == Checksum(a2, bytes2, length2)
    ensures |Checksum(a1, bytes1, length1)| == 4
  {
  }

  /** Only the data bytes and the first array entry matter: a buffer padded
      with anything past `length` gets the checksum of its data. */
  lemma ChecksumOfPadded(algorithm: CRCAlgorithm, data: seq<bv8>, padding: seq<bv8>)
    requires 0 < |data|
    ensures Checksum(algorithm, data + padding, |data|) == Checksum(algorithm, data, |data|)
  {
    assert (data + padding)[..|data|] == data;
    assert forall i :: 0 <= i < |data| ==> (data + padding)[i] == data[i];
    assert Uniform(data + padding, |data|) == Uniform(data, |data|);
    if Uniform(data, |data|) {
      assert Checksum(algorithm, data + padding, |data|) == ByteHex(data[0] as int);
    } else {
      assert data[..|data|] == data;
    }
  }

  class CRC {
    const algorithm: CRCAlgorithm
    /** The bytes given to the algorithm since its last reset. */
    var fed: seq<bv8>
    var firstByte: int
    var allSameAsFirstByte: bool

    ghost predicate Valid()
      reads this
    {
      firstByte == FIRST_BYTE_UNSET || -128 <= firstByte < 128
    }

    constructor (algorithm: CRCAlgorithm)
      ensures Valid() && this.algorithm == algorithm
      ensures fed == [] && firstByte == FIRST_BYTE_UNSET && allSameAsFirstByte
    {
      this.algorithm := algorithm;
      fed := [];
      firstByte := FIRST_BYTE_UNSET;
      allSameAsFirstByte := true;
    }

    /** update(bytes, offset, length): the algorithm takes bytes[offset ..
        offset+length), the first call records bytes[offset], and the
        uniformity scan covers indices offset .. length-1 (not up to
        offset+length). */
    method Update(bytes: seq<bv8>, offset: int, length: int)
      requires Valid()
      requires 0 <= offset && 0 <= length && offset + length <= |bytes|
      requires firstByte == FIRST_BYTE_UNSET ==> offset < |bytes|
      modifies this
      ensures Valid()
      ensures fed == old(fed) + bytes[offset..offset + length]
      ensures old(firstByte) == FIRST_BYTE_UNSET ==> firstByte == Signed(bytes[offset])
      ensures old(firstByte) != FIRST_BYTE_UNSET ==> firstByte == old(firstByte)
      ensures allSameAsFirstByte <==>
                (old(firstByte) == FIRST_BYTE_UNSET || old(allSameAsFirstByte)) &&
                forall i :: offset <= i < length ==> Signed(bytes[i]) == firstByte
    {
      fed := fed + bytes[offset..offset + length];
      if firstByte < -128 {
        firstByte := Signed(bytes[offset]);
        allSameAsFirstByte := true;
      }
      if allSameAsFirstByte {
        var i := offset;
        while i < length
          invariant offset <= i && (i <= length || i == offset)
          invariant allSameAsFirstByte
          invariant forall k :: offset <= k < i ==> Signed(bytes[k]) == firstByte
        {
          if Signed(bytes[i]) != firstByte {
            allSameAsFirstByte := false;
            break;
          }
          i := i + 1;
        }
      }
    }

    /** getHexValue: the uniform-byte name while every byte so far equalled
        the first one, otherwise the algorithm's digest. */
    function GetHexValue(): (s: string)
      reads this
      ensures allSameAsFirstByte ==> s == ByteHex(firstByte) && |s| == 4 && s[..2] == "0x"
      ensures allSameAsFirstByte ==> HexValue(s[2]) * 16 + HexValue(s[3]) == firstByte % 256
      ensures !allSameAsFirstByte ==> s == algorithm.hexOf(fed)
    {
      if !allSameAsFirstByte then algorithm.hexOf(fed) else ByteHex(firstByte)
    }

    /** getAlgorithm: the wrapped algorithm's name. */
    function GetAlgorithm(): (name: string)
      ensures name == algorithm.name
    {
      algorithm.name
    }

    method Reset()
      modifies this
      ensures Valid()
      ensures fed == [] && firstByte == FIRST_BYTE_UNSET && allSameAsFirstByte
    {
      fed := [];
      firstByte := FIRST_BYTE_UNSET;
      allSameAsFirstByte := true;
    }

    /** calculateChecksum: reset, one update over the whole buffer from
        offset 0, then getHexValue.  The answer depends only on the buffer. */
    method CalculateChecksum(buffer: Buffer) returns (s: string)
      requires buffer.Buffer? && 0 < |buffer.bytes| && 0 <= buffer.length <= |buffer.bytes|
      modifies this
      ensures Valid()
      ensures s == Checksum(algorithm, buffer.bytes, buffer.length)
      ensures fed == buffer.bytes[..buffer.length]
    {
      Reset();
      Update(buffer.bytes, 0, buffer.length);
      assert fed == buffer.bytes[..buffer.length];
      s := GetHexValue();
      SignedUniform(buffer.bytes, buffer.length);
    }
  }

  /** Comparing bytes as Java's signed bytes is comparing them, and the
      signed first byte names the part as the unsigned one does. */
  lemma SignedUniform(bytes: seq<bv8>, length: int)
    requires 0 < |bytes| && 0 <= length <= |bytes|
    ensures (forall i :: 0 <= i < length ==> Signed(bytes[i]) == Signed(bytes[0])) <==> Uniform(bytes, length)
    ensures ByteHex(Signed(bytes[0])) == ByteHex(bytes[0] as int)
  {
    forall i | 0 <= i < length && Signed(bytes[i]) == Signed(bytes[0])
      ensures bytes[i] == bytes[0]
    {
      SignedInjective(bytes[i], bytes[0]);
    }
    SignedByteHex(bytes[0]);
  }

  /** A byte read as signed is named as the unsigned byte. */
  lemma SignedByteHex(b: bv8)
    ensures ByteHex(Signed(b)) == ByteHex(b as int)
  {
    assert (b as int) % 256 == b as int;
    assert Signed(b) % 256 == (b as int) % 256;
  }

  lemma SignedInjective(a: bv8, b: bv8)
    requires Signed(a) == Signed(b)
    ensures a == b
  {
  }
}
