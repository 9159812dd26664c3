/** Checksums.java: the read-only list of a file's part checksums. */
module ChecksumList {
  import opened Wrappers

  /** The wrapped list is never changed after construction, so the list is a
      value. */
  datatype Checksums = Checksums(list: seq<string>)
  {
    function Size(): (n: nat)
      ensures n == |list|
    {
      |list|
    }

    predicate IsValidIndex(index: int)
      ensures IsValidIndex(index) <==> 0 <= index < |list|
    {
      index >= 0 && index < Size()
    }

    /** get: the entry at a valid index, null (None) anywhere else. */
    function Get(index: int): (c: Option<string>)
      ensures c.Some? <==> 0 <= index < |list|
      ensures c.Some? ==> c.value == list[index]
    {
      if IsValidIndex(index) then Some(list[index]) else None
    }
  }
}
