/** CRCAlgorithmFactory.java: resolving an algorithm name to one of the three
    supported digests, and the sorted list of their names. */
module AlgorithmFactory {
  import opened Wrappers
  import Crc

  /** The Names enum, in declaration order. */
  datatype Name = CRC_32 | MD5 | SHA_1
  {
    function Value(): (s: string)
      ensures |s| > 0
    {
      match this
      case CRC_32 => "CRC-32"
      case MD5 => "MD5"
      case SHA_1 => "SHA-1"
    }
  }

  /** Names.values(). */
  const VALUES: seq<Name> := [CRC_32, MD5, SHA_1]

  /** The first constant of `names` whose value equals `value` exactly
      (String.equals, so case matters and null matches nothing). */
  function FirstMatch(names: seq<Name>, value: Option<string>): (r: Option<Name>)
    ensures r.Some? ==> r.value in names && value == Some(r.value.Value())
    ensures r.Some? && names[0] != r.value ==> value != Some(names[0].Value())
    ensures r.None? ==> forall n :: n in names ==> value != Some(n.Value())
  {
    if names == [] then None
    else if value == Some(names[0].Value()) then Some(names[0])
    else FirstMatch(names[1..], value)
  }

  /** Names.get: the constant with that value, CRC_32 for anything else. */
  function Get(value: Option<string>): (n: Name)
    ensures value == Some(n.Value()) || n == CRC_32
    ensures (forall m: Name :: value != Some(m.Value())) ==> n == CRC_32
  {
    FirstMatch(VALUES, value).GetOr(CRC_32)
  }

  /** Every constant is found again from its own value. */
  lemma GetValueRoundTrip(n: Name)
    ensures Get(Some(n.Value())) == n
  {
  }

  /** Matching is case-sensitive: "md5" is not a known name. */
  lemma LowerCaseNameIsUnknown()
    ensures Get(Some("md5")) == CRC_32
    ensures Get(None) == CRC_32
  {
    assert "md5"[0] != "MD5"[0];
  }

  /** The three digest computations that getByName can wrap. */
  datatype Digests = Digests(
    crc32: seq<bv8> -> string,
    md5: seq<bv8> -> string,
    sha1: seq<bv8> -> string)

  /** getByName: the algorithm for the resolved constant, named by that
      constant's value. */
  function GetByName(name: Option<string>, digests: Digests): (a: Crc.CRCAlgorithm)
    ensures name == Some("MD5") ==> a.name == "MD5" && a.hexOf == digests.md5
    ensures name == Some("SHA-1") ==> a.name == "SHA-1" && a.hexOf == digests.sha1
    ensures name != Some("MD5") && name != Some("SHA-1") ==>
              a.name == "CRC-32" && a.hexOf == digests.crc32
  {
    var key := Get(name);
    match key
    case MD5 => Crc.CRCAlgorithm(key.Value(), digests.md5)
    case SHA_1 => Crc.CRCAlgorithm(key.Value(), digests.sha1)
    case CRC_32 => Crc.CRCAlgorithm(key.Value(), digests.crc32)
  }

  /** String.compareTo(a, b) <= 0: lexicographic order on characters, a
      proper prefix coming first. */
  predicate LexLe(a: string, b: string)
  {
    |a| == 0 || (|b| > 0 && (a[0] < b[0] || (a[0] == b[0] && LexLe(a[1..], b[1..]))))
  }

  lemma {:induction false} LexLeTotal(a: string, b: string)
    ensures LexLe(a, b) || LexLe(b, a)
  {
    if |a| > 0 && |b| > 0 && a[0] == b[0] {
      LexLeTotal(a[1..], b[1..]);
    }
  }

  predicate Sorted(s: seq<string>)
  {
    forall i :: 0 < i < |s| ==> LexLe(s[i - 1], s[i])
  }

  /** Inserts x into a sorted sequence before the first element it does not
      exceed. */
  function Insert(x: string, s: seq<string>): (r: seq<string>)
    requires Sorted(s)
    ensures Sorted(r) && multiset(r) == multiset(s) + multiset{x}
    ensures |r| > 0 && (r[0] == x || (|s| > 0 && r[0] == s[0]))
  {
    if s == [] then [x]
    else if LexLe(x, s[0]) then [x] + s
    else
      LexLeTotal(x, s[0]);
      var rest := Insert(x, s[1..]);
      assert s == [s[0]] + s[1..];
      [s[0]] + rest
  }

  /** The ascending sort that Arrays.sort applies to the names. */
  function Sort(s: seq<string>): (r: seq<string>)
    ensures Sorted(r) && multiset(r) == multiset(s)
  {
    if s == [] then [] else
      assert s == [s[0]] + s[1..];
      Insert(s[0], Sort(s[1..]))
  }

  /** getSupportedAlgorithms: the values of all constants, sorted. */
  function GetSupportedAlgorithms(): (names: seq<string>)
    ensures Sorted(names)
    ensures multiset(names) == multiset{CRC_32.Value(), MD5.Value(), SHA_1.Value()}
  {
    Sort([CRC_32.Value(), MD5.Value(), SHA_1.Value()])
  }

  /** The sorted list is exactly "CRC-32", "MD5", "SHA-1". */
  lemma SupportedAlgorithmsInOrder()
    ensures GetSupportedAlgorithms() == ["CRC-32", "MD5", "SHA-1"]
  {
    var names := GetSupportedAlgorithms();
    assert |names| == 3 by {
      assert |multiset(names)| == 3;
    }
    assert LexLe("CRC-32", "MD5") && LexLe("MD5", "SHA-1");
    assert !LexLe("MD5", "CRC-32") && !LexLe("SHA-1", "MD5") && !LexLe("SHA-1", "CRC-32");
    assert forall k :: 0 <= k < 3 ==> names[k] in multiset(names);
  }
}
