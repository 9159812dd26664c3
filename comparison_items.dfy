/** comparison/ComparisonItem.java and comparison/ComparisonItems.java: the
    marked cells of a comparison, one item per (part, checksum) so that
    files agreeing on a part share the item and its mark. */
module Items {
  import opened Wrappers
  import opened Marks

  class ComparisonItem {
    const checksum: string
    const part: int
    var mark: Mark

    /** The item never holds NEXT, and an item without a checksum is BAD. */
    ghost predicate Valid()
      reads this
    {
      mark != NEXT && (checksum == "" ==> mark == BAD)
    }

    /** A null or empty checksum is stored as "" and pinned to BAD; any other
        starts out UNDEFINED. */
    constructor (checksum: Option<string>, part: int)
      ensures this.part == part && Valid()
      ensures checksum == None || checksum == Some("") ==> this.checksum == "" && mark == BAD
      ensures checksum.Some? && checksum.value != "" ==> this.checksum == checksum.value && mark == UNDEFINED
    {
      this.part := part;
      if checksum == None || checksum == Some("") {
        this.checksum := "";
        this.mark := BAD;
      } else {
        this.checksum := checksum.value;
        this.mark := UNDEFINED;
      }
    }

    /** setMark: nothing for an item without a checksum; NEXT advances the
        current mark along the cycle; any other mark, NOT_EXISTS included, is
        stored as given. */
    method SetMark(m: Mark)
      modifies this
      decreases if m == NEXT then 1 else 0
      ensures checksum == "" ==> mark == old(mark)
      ensures checksum != "" && m == NEXT ==> mark == NextMark(old(mark))
      ensures checksum != "" && m != NEXT ==> mark == m
      ensures old(Valid()) ==> Valid()
    {
      if |checksum| != 0 {
        if m == NEXT {
          SetMark(NextMark(mark));
        } else {
          mark := m;
        }
      }
    }
  }

  /** The item is the one find(part, checksum) is looking for; a null
      checksum matches nothing, since items never hold null. */
  predicate Matches(item: ComparisonItem, part: int, checksum: Option<string>)
  {
    item.part == part && checksum == Some(item.checksum)
  }

  /** The position of the first matching item at k or after, if any. */
  function FindFrom(items: seq<ComparisonItem>, part: int, checksum: Option<string>, k: nat): (r: Option<nat>)
    requires k <= |items|
    decreases |items| - k
    ensures r.Some? ==> k <= r.value < |items| && Matches(items[r.value], part, checksum)
    ensures r.Some? ==> forall j :: k <= j < r.value ==> !Matches(items[j], part, checksum)
    ensures r.None? ==> forall j :: k <= j < |items| ==> !Matches(items[j], part, checksum)
  {
    if k == |items| then None
    else if Matches(items[k], part, checksum) then Some(k)
    else FindFrom(items, part, checksum, k + 1)
  }

  /** The position of the first matching item, if any. */
  function FindIndex(items: seq<ComparisonItem>, part: int, checksum: Option<string>): (r: Option<nat>)
    ensures r.Some? ==> r.value < |items| && Matches(items[r.value], part, checksum)
    ensures r.Some? ==> forall k :: 0 <= k < r.value ==> !Matches(items[k], part, checksum)
    ensures r.None? ==> forall k :: 0 <= k < |items| ==> !Matches(items[k], part, checksum)
  {
    FindFrom(items, part, checksum, 0)
  }

  /** find(part, checksum): the first matching item, or null. */
  function Lookup(items: seq<ComparisonItem>, part: int, checksum: Option<string>): (r: ComparisonItem?)
  {
    match FindIndex(items, part, checksum)
    case None => null
    case Some(i) => items[i]
  }

  /** A null checksum finds nothing. */
  lemma NullChecksumFindsNothing(items: seq<ComparisonItem>, part: int)
    ensures Lookup(items, part, None) == null
  {
  }

  /** What was found stays found, and stays the same item, when more items
      are appended. */
  lemma FindStableUnderAppend(items: seq<ComparisonItem>, more: seq<ComparisonItem>,
                              part: int, checksum: Option<string>)
    requires FindIndex(items, part, checksum).Some?
    ensures FindIndex(items + more, part, checksum) == FindIndex(items, part, checksum)
  {
    var i := FindIndex(items, part, checksum).value;
    assert forall k :: 0 <= k <= i ==> (items + more)[k] == items[k];
  }

  /** Appending to a list where nothing matches finds the new item exactly
      when it matches. */
  lemma FindAfterAppend(items: seq<ComparisonItem>, item: ComparisonItem, part: int, checksum: Option<string>)
    requires FindIndex(items, part, checksum).None?
    ensures Matches(item, part, checksum) ==> Lookup(items + [item], part, checksum) == item
    ensures !Matches(item, part, checksum) ==> Lookup(items + [item], part, checksum) == null
  {
    assert forall k :: 0 <= k < |items| ==> (items + [item])[k] == items[k];
    assert (items + [item])[|items|] == item;
  }

  class ComparisonItems {
    var items: seq<ComparisonItem>

    constructor ()
      ensures items == []
    {
      items := [];
    }

    /** add: appends without looking for an equal item. */
    method Add(item: ComparisonItem)
      modifies this
      ensures items == old(items) + [item]
    {
      items := items + [item];
    }

    /** find(part, checksum): a linear search for the first match. */
    method Find(part: int, checksum: Option<string>) returns (r: ComparisonItem?)
      ensures r == Lookup(items, part, checksum)
      ensures r != null ==> r in items && Matches(r, part, checksum)
    {
      var k := 0;
      while k < |items|
        invariant 0 <= k <= |items|
        invariant forall i :: 0 <= i < k ==> !Matches(items[i], part, checksum)
      {
        if items[k].part == part && checksum == Some(items[k].checksum) {
          assert FindIndex(items, part, checksum) == Some(k);
          return items[k];
        }
        k := k + 1;
      }
      return null;
    }

    /** find(item): the search by that item's part and checksum, which finds
        the first item equal to it in both (possibly itself). */
    method FindItem(source: ComparisonItem) returns (r: ComparisonItem?)
      ensures r == Lookup(items, source.part, Some(source.checksum))
      ensures source in items ==> r != null
    {
      r := Find(source.part, Some(source.checksum));
      if source in items {
        var k :| 0 <= k < |items| && items[k] == source;
        assert Matches(items[k], source.part, Some(source.checksum));
      }
    }
  }
}
